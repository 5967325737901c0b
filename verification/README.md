# my-simple-tools: JWT page and faker catalog, modelled in Dafny

This project models the logic of two parts of the `my-simple-tools` browser toolbox.

**JWT parser page** (`src/pages/jwt-parser.js`):
- `generateDisplayObject` splits a token on `.`, then decodes each part with `atob` and `JSON.parse`, falling back to the raw text.
  It records whether header and payload are objects, the decode time, and `payload.exp` or `0`.
- The saved-token list is sorted by timestamp and rendered with an expiry status.
- The `input`, save and clear handlers form a state machine over the text box, the save button, `currentInput` and the saved list.

**Faker catalog** (`src/lib/faker-factory.js`):
- `fakerFactory` walks the faker library object.
  - Root properties are filtered (no `local*` names, no `definitions`) and sorted.
  - Objects become capitalised option groups whose properties are visited in sorted order.
  - Functions with keys of two or more segments become schemas.
- Each schema is named by the key's last segment and adjusted by the `argumentMapOverrides` table, either through `Object.assign` or by a transform.
  - `excludeFakerFn` returns `null`, which keeps the key out.
  - The `mersenne.seed` transform adds a numeric `Seed Value` argument.
- Schemas are registered in an insertion-ordered map that is exposed through `keys()` and `add()`.

## Modelling choices

- **Files and modules.**
  - `wrappers.dfy` holds the Option/Result types.
  - `text.dfy` models `split`, `pop`, capitalisation and the default string order of `Array.prototype.sort`, which compares UTF-16 code units.
  - `sorting.dfy` models sorting with a comparator.
  - `base64.dfy` models `atob`: the forgiving-base64 decode, defined in the "Forgiving base64" section of the WHATWG Infra standard, which section 8.3 ("Base64 utility methods") of the WHATWG HTML standard uses to define `atob`.
  - `json.dfy` models JSON values and `typeof`.
  - `jwt_parser.dfy` and `jwt_page.dfy` model the JWT page.
  - `faker_schema.dfy`, `method_map.dfy`, `faker_overrides.dfy` and `faker_factory.dfy` model the faker catalog.
  - `jwt_properties.dfy` and `faker_properties.dfy` hold the cross-cutting lemmas.
- **JSON parsing.** `JSON.parse` is a parameter, `parse: string -> Option<JsonValue>`, where `None` means that it throws.
- **Clocks.** The clock (`new Date()`) is an `int` parameter in milliseconds.
- **The faker library** is a value of the `Node` datatype:
  - a function with its arity (`Function.length`);
  - an object with its own enumerable properties;
  - or anything else.

  `null` and `undefined` are both encoded as `Obj([])`: `_.get(faker, key, null)` turns an own property holding `undefined` into `null`, and `typeof null` is `'object'`, so either one shows up as an empty option group.
  
  `parseKey` receives the node found at its key, rather than looking the key up again with `_.get`.
- **Function overrides.** The table's function overrides are defunctionalised into `SchemaTransform`. Only two exist: `excludeFakerFn` and the `mersenne.seed` transform.
- **The override table** is transcribed in full. It has 236 `{}` entries plus the eight entries that change something.
- **The `methods` map** is a list of key/schema pairs in insertion order. `Set` replaces a present key in place and appends a new key.
- **The option menu** is a tree of `Item` options and labelled `Group`s.
- **`createArgument`** is the `Argument` datatype's constructor.
- **Registration, declaratively.** `FakerFactory.Registers` states which keys the traversal registers without running it. It is the partner definition for `ParseKey`, `ParseChildren`, `ParseRoots` and `BuildCatalog`.

### Behaviour worth knowing

- **Decoding can throw.** `generateDisplayObject` evaluates `payload.exp`.
  - Input without a `.`, including the empty box, has an `undefined` payload, so the expression throws a `TypeError`.
  - A payload that decodes to `null` also throws.
  - Input with fewer than two parts throws instead of returning a record (`JwtProperties.NoSeparatorThrows`).
- **Saved tokens cannot be removed.** The code has no operation for it.
- **Ties in the sort.** The comparator never returns `0`, not even for a record compared with itself, so by the letter of ECMA-262 it is never a consistent comparator: `Array.prototype.sort` may then give any implementation-defined order. The model sorts by insertion. For lists with distinct timestamps, every correct sort gives the model's result (`JwtProperties.SortedSavedUnique`), provided the engine never compares a record with itself.
- **When the timestamp is taken.** It is taken when the token is decoded, not when it is committed. Because save decodes the box again, the saved record still carries the save time.
- **The rendered date** in a saved row is the time of rendering.
- **`exp` of `0`** counts as expired only for a positive clock.

## Model

| member | source | states |
|---|---|---|
| Text.Split | src/pages/jwt-parser.js:56 | `split('.')` yields at least one piece; it yields two or more exactly when the separator occurs; no piece contains the separator |
| Text.JoinSplit | src/pages/jwt-parser.js:56 | joining the pieces with the separator gives back the original string |
| Text.SplitLength | src/pages/jwt-parser.js:56 | there is one more piece than there are separators |
| Text.SplitJoin | src/pages/jwt-parser.js:56 | splitting a join of separator-free parts gives back exactly those parts |
| Text.SplitPrefix | src/pages/jwt-parser.js:56 | a separator-free text before the first separator becomes the first piece, followed by the pieces of the rest |
| Text.LastSegment | src/lib/faker-factory.js:71 | `split('.').pop()` contains no separator and is either the whole key or the suffix that follows the last separator |
| Text.LastSegmentIsSuffix | src/lib/faker-factory.js:71 | the last piece of the split is exactly that suffix |
| Text.LastSegmentAfterSeparator | src/lib/faker-factory.js:71 | for a key `a.b` with `b` separator-free, the label is `b` |
| Text.Capitalize | src/lib/faker-factory.js:121 | the heading keeps the key's length, upper-cases its first character and keeps the rest |
| Text.CodeUnitLessIrreflexive | src/lib/faker-factory.js:124 | under the default sort order, no string sorts before itself |
| Text.CodeUnitLessTransitive | src/lib/faker-factory.js:124 | the default sort order is transitive |
| Text.CodeUnitLessTotal | src/lib/faker-factory.js:124 | the default sort order orders every pair of distinct strings |
| Text.CodeUnitLessCommonPrefix | src/lib/faker-factory.js:123-125 | prefixing two child names with the same `key.` does not change their order |
| Sorting.InsertionSort | src/pages/jwt-parser.js:229 | the sort returns a permutation of its input, which is sorted whenever the comparator is a strict weak order |
| Sorting.SortedIsFixpoint | src/pages/jwt-parser.js:229 | sorting an already sorted list leaves it unchanged |
| Sorting.SortedPermutationUnique | src/pages/jwt-parser.js:229 | two sorted permutations of the same list are equal when the comparator orders every pair of its elements |
| Base64.ForgivingDecode | src/pages/jwt-parser.js:59 | input that decodes contains only base64 alphabet characters, ASCII whitespace and `=` |
| Base64.Atob | src/pages/jwt-parser.js:59 | `atob` succeeds exactly when the forgiving decode does; it returns the binary string of the decoded bytes |
| Base64.Encode | src/pages/jwt-parser.js:59 | the encoding used as the partner of `atob` has a length that is a multiple of four and uses only alphabet characters and `=` |
| Base64.DecodeEncode | src/pages/jwt-parser.js:59 | `atob` inverts base64 encoding for every byte string |
| Base64.DecodeUnpadded | src/pages/jwt-parser.js:59 | removing the trailing `=` from an encoding leaves text that `atob` still decodes to the same bytes |
| Base64.Base64UrlRejected | src/pages/jwt-parser.js:59 | text containing `-` or `_` (base64url) makes `atob` throw |
| Json.TypeOf | src/pages/jwt-parser.js:66 | `typeof` is `'object'` exactly for `null`, arrays and objects, and `'string'` exactly for strings |
| JwtParser.DecodePart | src/pages/jwt-parser.js:57-63 | a part is replaced by parsed JSON exactly when `atob` and `JSON.parse` both succeed; otherwise it is exactly the raw text of the part |
| JwtParser.DecodedAt | src/pages/jwt-parser.js:57 | destructuring past the last part gives `undefined` |
| JwtParser.ExpirationOf | src/pages/jwt-parser.js:70 | reading `exp` throws exactly for an `undefined` or `null` payload; otherwise it gives a truthy `exp` or `0` |
| JwtParser.GenerateDisplayObject | src/pages/jwt-parser.js:55-77 | decoding throws exactly when there is no `.` or the payload is `null`. Otherwise the record keeps the text and the clock; its parts are `split('.')` of the text (two or more, joining back to it); header, payload and signature are the decodes of parts 0, 1 and 2; `expiration` is the payload's truthy `exp` or `0`; and `valid` holds exactly when header and payload are objects |
| JwtParser.Expired | src/pages/jwt-parser.js:190 | a numeric `exp` is expired exactly when `exp * 1000` precedes the render time |
| JwtParser.SortSaved | src/pages/jwt-parser.js:228-229 | sorting the saved list permutes it into ascending timestamp order |
| JwtParser.SortedIsAscending | src/pages/jwt-parser.js:229 | a list is sorted under the timestamp comparator exactly when its timestamps never decrease |
| JwtProperties.Base64UrlPartStaysRaw | src/pages/jwt-parser.js:57-63 | a base64url part with `-` or `_` is kept as raw text |
| JwtProperties.Base64UrlTokenInvalid | src/pages/jwt-parser.js:55-77 | a token whose header or payload is base64url-encoded with `-` or `_` decodes as invalid (or throws) |
| JwtProperties.EncodedPartDecodes | src/pages/jwt-parser.js:57-63 | a base64-encoded part decodes to what `JSON.parse` makes of its bytes, or stays raw when that throws |
| JwtProperties.UnpaddedTokenDecodes | src/pages/jwt-parser.js:55-77 | the same token with the `=` padding removed from each segment, as JWTs are written, decodes to the same valid record |
| JwtProperties.EncodedTokenDecodes | src/pages/jwt-parser.js:55-77 | encoding a JSON object header and payload and joining them with a signature gives a valid record with those values and three parts |
| JwtProperties.NoDotInEncoding | src/pages/jwt-parser.js:56 | a base64 encoding never contains the separator |
| JwtProperties.NoSeparatorThrows | src/pages/jwt-parser.js:56-70 | text without a `.` throws the `TypeError` for reading `exp` of `undefined` |
| JwtProperties.NullPayloadThrows | src/pages/jwt-parser.js:70 | a `null` payload throws the `TypeError` for reading `exp` of `null` |
| JwtProperties.EmptyInputThrows | src/pages/jwt-parser.js:56-70 | the empty box throws |
| JwtProperties.FieldsArePositional | src/pages/jwt-parser.js:57 | header, payload and signature are the decodes of parts 0, 1 and 2 |
| JwtProperties.LaterPartsIgnored | src/pages/jwt-parser.js:56-57 | parts after the third do not change what is decoded |
| JwtProperties.SameLeadingPartsSameFields | src/pages/jwt-parser.js:57 | two texts with the same first three parts decode to the same fields |
| JwtProperties.ClockOnlyStampsTimestamp | src/pages/jwt-parser.js:69 | the clock affects only the timestamp of the record |
| JwtProperties.ZeroExpirationIsExpired | src/pages/jwt-parser.js:190 | a missing or falsy `exp` (stored as `0`) is shown as expired for any positive clock |
| JwtProperties.ExpiredStaysExpired | src/pages/jwt-parser.js:190 | once expired, a token stays expired at every later time |
| JwtProperties.DecodedExpiryVerdict | src/pages/jwt-parser.js:190 | a decoded token whose payload has a numeric `exp` is shown expired exactly when the clock is past `exp` seconds, `0` included; a payload without `exp` is treated as `exp` `0` |
| JwtProperties.SortedSavedUnique | src/pages/jwt-parser.js:229 | with distinct timestamps, the sorted order is the only ascending arrangement of the list |
| JwtProperties.SortKeepsAscending | src/pages/jwt-parser.js:229 | an already ascending list is left as it is |
| JwtProperties.TwoSavesInTimestampOrder | src/pages/jwt-parser.js:229 | two records with different timestamps are listed earlier first, whichever was pushed first |
| JwtPage.RenderRows | src/pages/jwt-parser.js:227-235 | one row per saved token, in list order, showing its text and expiry at the render time |
| JwtPage.OnInput | src/pages/jwt-parser.js:128-160 | the input handler throws exactly when decoding throws and never touches the saved list |
| JwtPage.OnSave | src/pages/jwt-parser.js:237-246 | the save handler throws exactly when decoding the box throws, and it leaves `currentInput` alone |
| JwtPage.OnClear | src/pages/jwt-parser.js:251-253 | clearing empties the box and changes nothing else: the save button, `currentInput`, the "Invalid JWT" flag, the saved list and the rendered rows stay as they were |
| JwtPage.Step | src/pages/jwt-parser.js:128-253 | every event keeps all saved records and adds at most one |
| JwtPage.InitialConsistent | src/pages/jwt-parser.js:16-19 | the page as loaded satisfies the page invariant |
| JwtPage.InputEnablesSaveOnlyWhenValid | src/pages/jwt-parser.js:128-160 | typing enables save and sets `currentInput` exactly for a valid token; it flags an invalid one; a throwing decode changes neither |
| JwtPage.SaveAppendsOne | src/pages/jwt-parser.js:237-246 | a successful save adds exactly the decoded record, keeps the list ascending, re-renders it, empties the box and disables save |
| JwtPage.SaveThrowingKeepsList | src/pages/jwt-parser.js:237-240 | a save whose decode throws only empties the rendered list |
| JwtPage.ClearThenSaveThrows | src/pages/jwt-parser.js:237-253 | clear leaves save enabled, so a following save decodes the empty box and throws, saving nothing |
| JwtPage.SaveWithLaterClockAppendsAtEnd | src/pages/jwt-parser.js:237-242 | a save at a time after every saved timestamp lands at the end of the list |
| JwtPage.DecodeAnyClock | src/pages/jwt-parser.js:69 | whether decoding throws or is valid does not depend on the clock |
| JwtPage.StepPreservesConsistent | src/pages/jwt-parser.js:128-253 | every event keeps the invariant: save is enabled only for a valid or throwing box, and saved records are valid and ascending |
| FakerSchema.DefaultSchema | src/lib/faker-factory.js:71-96 | a new schema is named by the key's last segment (the exact text after its last `.`, or the whole key), offered under that name and valued by the full key; its size is the function's arity, it has no arguments, and its ref is the faker repository path of the enclosing group's label |
| FakerSchema.ApplyPatch | src/lib/faker-factory.js:104-108 | `Object.assign` takes each field from the override when present; a non-empty `name` also relabels the option; `{}` changes nothing |
| FakerSchema.ApplyTransform | src/lib/faker-factory.js:100-101 | a function override returns `null` exactly for `excludeFakerFn`; the seed transform relabels the option `Seed` and appends a numeric `Seed Value` argument |
| FakerSchema.ApplyOverride | src/lib/faker-factory.js:98-113 | the override step drops the key exactly when it is excluded, keeps the schema when there is no entry, and never changes the option's value |
| MethodMap.Get | src/pages/faker.js:51 | `get` finds a value exactly for the listed keys |
| MethodMap.Set | src/lib/faker-factory.js:114 | after `set`, the key maps to the new value and every other key is unchanged; keys stay distinct and in insertion order, and a new key is appended |
| FakerOverrides.TableExclusions | src/lib/faker-factory.js:165-1131 | the table excludes exactly `address.cityPrefix` and `address.citySuffix` |
| FakerOverrides.CityEntry | src/lib/faker-factory.js:170 | `address.city` is renamed `City` and takes one string argument, `Format` |
| FakerOverrides.SeedEntry | src/lib/faker-factory.js:926-930 | `mersenne.seed` is overridden by the seed transform |
| FakerOverrides.SeedLastSegment | src/lib/faker-factory.js:71 | the label of `mersenne.seed` is `seed` |
| FakerFactory.SortEntries | src/lib/faker-factory.js:123-124 | the sorted property list is a permutation in ascending name order |
| FakerFactory.EntryOrderIsWeak | src/lib/faker-factory.js:124 | the name order used by `sort()` is a strict weak order |
| FakerFactory.ParseKey | src/lib/faker-factory.js:60-130 | visiting a node inside a group performs exactly the registrations the declarative relation `Registers` allows. Each key is set to a schema registered for it: the overridden default schema of the function, sized by its `length`, with a `ref` naming the enclosing group's label. The menu gains exactly those schemas' option elements, earlier keys are kept, and an object yields one group headed by the capitalised key |
| FakerFactory.ParseFunction | src/lib/faker-factory.js:64-118 | a function with a `.` in its key sets that key to exactly the override table's result for the default schema of its arity and group, unless that result is `null`, and offers exactly that schema's option element; otherwise nothing changes |
| FakerFactory.ObjectRegisters | src/lib/faker-factory.js:123-125 | what an object registers does not depend on the order its properties are visited |
| FakerFactory.ParseChildren | src/lib/faker-factory.js:123-125 | visiting the sorted properties registers exactly what any of them registers |
| FakerFactory.ChildRegistersPermutation | src/lib/faker-factory.js:123-125 | reordering the properties does not change what they register |
| FakerFactory.FilterRoots | src/lib/faker-factory.js:132-133 | the filter keeps each root property whose name starts neither with `local` nor is `definitions`, as often as it occurs |
| FakerFactory.RootEntries | src/lib/faker-factory.js:132-134 | the visited roots are exactly the kept root properties, in ascending name order |
| FakerFactory.ParseRoots | src/lib/faker-factory.js:136 | visiting the roots registers exactly what any root registers |
| FakerFactory.BuildCatalog | src/lib/faker-factory.js:48-147 | the catalog's keys are exactly the keys some kept root registers, with no duplicates. Each key holds a schema registered for it, which fixes the schema's size, `ref`, name, arguments and option. The menu offers exactly the option elements of the registered schemas, with their text and value |
| FakerFactory.CatalogKeys | src/lib/faker-factory.js:139 | `keys()` lists exactly the keys the map holds |
| FakerFactory.Add | src/lib/faker-factory.js:142-145 | `add` sets one key and keeps every other key and the menu; a new key is appended to `keys()` |
| FakerProperties.RegisteredShape | src/lib/faker-factory.js:67-69 | a registered key contains a `.`, is not excluded, and lies under the key of the node that registers it; its schema comes from a default schema through the override table |
| FakerProperties.RegistersUnique | src/lib/faker-factory.js:60-128 | when no property name holds a `.` and no object repeats a name, a key is registered with at most one schema |
| FakerProperties.CatalogSchemas | src/lib/faker-factory.js:48-147 | in such a library, the catalog maps a key to a schema exactly when the library registers that key with that schema |
| FakerProperties.GroupedFunctionSchema | src/lib/faker-factory.js:71-125 | a function property of a kept root object is catalogued with the override table's result for the default schema of its `length` and the root's capitalised group label; without an override, its size is the arity and its `ref` names that group |
| FakerProperties.CatalogKeyShape | src/lib/faker-factory.js:67-69 | every catalog key has two or more segments, is not excluded, and starts with a kept root name |
| FakerProperties.ExcludedKeyAbsent | src/lib/faker-factory.js:112-116 | an excluded key is in neither the map nor the menu |
| FakerProperties.CityAffixesExcluded | src/lib/faker-factory.js:175-176 | with the page's table, `address.cityPrefix` and `address.citySuffix` never appear |
| FakerProperties.NothingOutsideFunctionsOfTwoSegments | src/lib/faker-factory.js:64-69 | a one-segment function, and any value that is neither function nor object, adds nothing |
| FakerProperties.FunctionEntry | src/lib/faker-factory.js:71-116 | visiting a function sets its key to the overridden default schema unless it is excluded. With no override, the schema keeps the arity and refers to the enclosing group's file |
| FakerProperties.PlainKeySchema | src/lib/faker-factory.js:77-96 | a key with no override, or `{}`, is named and offered by its last segment, has no arguments, and refers to the faker repository |
| FakerProperties.NamedKeySchema | src/lib/faker-factory.js:103-108 | a key whose override names it takes that name in the schema and the option, and takes the override's arguments |
| FakerProperties.CitySchema | src/lib/faker-factory.js:170 | `address.city` is shown as `City` with one string argument, `Format` |
| FakerProperties.SeedSchema | src/lib/faker-factory.js:926-930 | `mersenne.seed` keeps the name `seed`, is shown as `Seed`, and takes one numeric `Seed Value` argument |
| FakerProperties.FunctionChildrenAscending | src/lib/faker-factory.js:123-125 | function properties visited in sorted order give options in ascending key order |
| FakerProperties.FunctionGroupAscending | src/lib/faker-factory.js:119-128 | an object of functions becomes one group, headed by the capitalised key, whose options ascend |
| FakerProperties.ObjectRoots | src/lib/faker-factory.js:119-127 | the roots that become top-level option groups are exactly the object roots, kept in visiting order |
| FakerProperties.RootGroupsInOrder | src/lib/faker-factory.js:119-136 | visiting roots with dot-free names puts one group per object root at the top of the menu, in visiting order, labelled with the capitalised root name; nothing else appears there |
| FakerProperties.CatalogGroupsInRootOrder | src/lib/faker-factory.js:132-136 | the menu's top level is one group per kept root object, labelled with its capitalised name, in ascending order of the root names |
| FakerProperties.RootsAppend | src/lib/faker-factory.js:136 | visiting the roots `a + b` leaves the same map as visiting `a` and then visiting `b` from there |
| FakerProperties.WalkKeysInOrder | src/lib/faker-factory.js:114-136 | a key registered by an earlier root comes before a key first added by a later root, because `Map.set` appends a new key after the keys present |
| FakerProperties.CatalogKeysInRootOrder | src/lib/faker-factory.js:132-139 | `keys()` lists a key a kept root registers before any key a kept root with a larger name registers |

## Left out

- DOM rendering is not modelled. This covers `renderJWTForm`, the JSON text panes, `createIconButton`, `src/lib/render-methods.js`, `src/lib/tab.js`, `src/lib/dialog.js`, `src/index.js` and the faker page `src/pages/faker.js`: they are presentation and wiring.
- The clipboard copy and the date formatting of saved rows are left out, because they are browser I/O.
- `JSON.parse` internals are not modelled; it is a parameter. Numbers are integers, so fractional `exp` values are not modelled.
- The faker and lodash libraries are not modelled. `_.get` path parsing of keys containing `.` or `[` is left out, and so are cyclic objects. The library is a finite `Node` tree, and `parseKey` receives the node at its key.
- `null` and array values are not a case of their own. `typeof` calls them `'object'`, so they are represented as `Obj` nodes with their enumerable properties.
- The schema closures `action`, `call`, `description` and `samples` are left out: they call into the faker library.
- The schema's `element` and the menu node are one object in the source. The model keeps the schema's `option` and the menu's `Item` equal when registering, and renames both together.
- The save button's state on page load comes from the markup, which is not part of this model. `JwtPage.Initial` takes it as a parameter.
- Signature verification and removal of saved tokens are left out, because the code has neither.
- Text.Capitalize: upper-cases only ASCII letters, because full Unicode `toUpperCase` (including characters that grow) is not modelled.
- Text.CodeUnitLess: compares `char`s, which matches UTF-16 code units only for characters of the Basic Multilingual Plane.
- JwtParser.Expired: yields `None` for a string, array or object `exp`, where JavaScript would coerce it; the expiry of those is not stated.
- JwtParser.SortSaved: promises nothing about a list with equal timestamps beyond what insertion sort gives, because the source's comparator is then inconsistent and the engine's sort order is implementation-defined.
- JwtPage.OnInput: does not model the `TypeError` that `renderJWTForm` can throw at line 115. Assigning a payload value to `input.value` converts it to a string, and that throws for an object whose `toString` and `valueOf` are not callable, such as `{"toString":0}`. The source then leaves `currentInput` and the save button as they were, while the model sets both. String conversion of JSON values is not modelled.
- JwtPage.InputEnablesSaveOnlyWhenValid: carries the same gap as `JwtPage.OnInput` for payload values whose string conversion throws.
- JwtPage.OnSave: does not model the `TypeError` that `expiration * 1000` (line 190) throws in `updateSavedList` for an object `exp` whose conversion to a number throws. That happens after the push, so the source leaves the box filled and save enabled, while the model empties the box and disables save. Numeric conversion of object values is not modelled, as for `JwtParser.Expired`.
- JwtPage.RenderRows: uses one clock reading for the whole list, where the source reads the clock once per row; in `OnSave` that reading is also the one the decode stamps on the new record, where the source reads the clock again for the rows (line 168) after the decode has read it (line 69).
- FakerProperties.FunctionGroupAscending: covers groups whose properties are all functions. Nested groups are ordered by the same sorted traversal, but their order is not stated.
