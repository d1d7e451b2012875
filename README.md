# Object graph to C# object literal, modelled in Dafny

`ObjectToObjectLiteral.ToObjectInitializer` turns an NHibernate-hydrated .NET
object graph into the text of one C# object initializer, `var x = new T { ... };`.
It walks the graph recursively through `WalkObject` and `WalkList`, which append
to one shared `StringBuilder`. A `HashSet<Entity>` history makes the walk
terminate on cyclic graphs. An entity is the runtime type of an object together
with its `Key` property, which is 0 when the type has none. An object whose
entity was already written is emitted as `new T{Key=k} /* Reference */`.

Two settings decide which properties are written:
- per-type include sets, the `Restriction`s, gathered into a dictionary keyed by
  entity name;
- a comma-separated global exclude list.

`HandleBaseTypes` formats scalar properties: integers, `Int64` with an `L`,
booleans, dates in a short or a long form, backslash-doubled strings, `byte[]`
and null nullables. A type name ending in `Proxy` is written without that suffix.

The model replaces reflection with an explicit graph, `ObjectGraph.Graph`. Each
node has a runtime type, an optional `Key` value and its properties in the
order `GetProperties()` returns them, each already classified by kind. The modules are:

- `Identity`: `Entity`, `EntityEqualityComparer` and proxy-suffix stripping.
- `Text`: `Tabs`, decimal integer text, `Split` and `Join`.
- `Literals`: the date, `byte[]` and string literal rules, each with the reading
  that undoes it.
- `Restrictions`: building the restriction dictionary, and the two `continue`
  tests of the property loop.
- `WalkSpec`: what one `WalkObject` call writes and how it changes the history,
  as functions of the graph, the settings, the level and the history on entry.
- `WalkFacts`: properties of the walk.
  - The history grows only by graph entities.
  - Each entity is expanded at most once.
  - The projection selects properties as stated.
  - List elements are joined by separators.
  - Every scalar literal reads back as its value.
- `Initializer`: the whole output of `ToObjectInitializer` as a function.
- `Walker`: the imperative serialiser. `ToObjectInitializer` is a method, and
  `ObjectWalker` is a class holding the buffer `sb` and the history `hist`.
  Its methods `WalkObject`, `WalkList` and `HandleBaseTypes` keep the source's
  loops and `appendComma` flags. Each is proved to append exactly what the
  `WalkSpec` functions describe.

The walk terminates on every graph. Its termination measure is the number of
graph entities not yet in the history. That number drops at every expansion,
because the entity is added before any of its properties is walked.

A repeated object is referred to by its type name and key only. Restrictions
are include-only. For non-null restrictions with non-null names, the one
configuration failure is a repeated entity name, on which building the
dictionary throws. String literals escape backslashes and
nothing else.

A runtime type is identified by its assembly-qualified name, as the comparer
compares `Type` objects. Its short `Type.Name` is only what is written and what
restrictions are looked up by.

## Model

| member | source | states |
|---|---|---|
| Identity.EntityOf | objecttoobjectliteral.cs:23-30 | an entity carries the object's runtime type and its `Key` value, or 0 when the type has no `Key` property |
| Identity.EntityEqualsIsEquality | objecttoobjectliteral.cs:35-41 | the comparer holds two entities equal exactly when they have the same runtime type (the same `Type` object, identified by its assembly-qualified name) and the same key, so the history behaves as a set of entity values |
| Identity.KeylessObjectsCollide | objecttoobjectliteral.cs:27-29 | two keyless objects of one type are the same entity, and a keyless object is the same entity as one of key 0 |
| Identity.EntityHash | objecttoobjectliteral.cs:43-46 | the hash is a signed 32-bit `int` congruent to the type hash plus the key hash modulo 2^32, as the wrapping `int` sum is |
| Identity.EntityHashIsSigned | objecttoobjectliteral.cs:45 | a sum of -1 stays -1: the hash is signed, not reduced to an unsigned range |
| Identity.EqualEntitiesHashAlike | objecttoobjectliteral.cs:35-46 | entities the comparer holds equal have equal hashes, whatever hash functions the runtime uses |
| Identity.StripProxy | objecttoobjectliteral.cs:215-218 | a name ending in `Proxy` loses exactly that suffix; any other name is unchanged |
| Identity.StripProxyOnce | objecttoobjectliteral.cs:215-218 | the suffix is removed once: `NProxy` shows as `N`, `NProxyProxy` as `NProxy` |
| Identity.ProxyKeepsIdentity | objecttoobjectliteral.cs:208-218 | a proxy type and the type it stands for share a display name but are different entities |
| Identity.SharedNameKeepsIdentity | objecttoobjectliteral.cs:37 | two runtime types with one short name, such as `HashSet<Order>` and `HashSet<Address>`, are written under the same name but are different entities, even with equal keys |
| Text.Tabs | objecttoobjectliteral.cs:170-175 | the result has exactly `count` characters, all tabs, so it is empty for 0 |
| Text.IntTextRoundTrip | objecttoobjectliteral.cs:382-389 | the decimal text of every integer, negative ones included, parses back to the integer |
| Text.Split | objecttoobjectliteral.cs:133 | splitting always yields at least one part, so the exclude comment is always written |
| Text.JoinSplit | objecttoobjectliteral.cs:133-139 | joining the split parts with the separator gives the original string back |
| Text.SplitJoin | objecttoobjectliteral.cs:133 | splitting parts joined by a separator that none of them holds gives the parts back |
| Text.Dedup | objecttoobjectliteral.cs:72 | the include list as a set: the same elements, each once |
| Literals.DateArgsFields | objecttoobjectliteral.cs:415-442 | the date arguments are year, month and day at midnight, and the six fields otherwise, comma-separated |
| Literals.DateLiteralRoundTrip | objecttoobjectliteral.cs:415-442 | a date literal parses back to the same date and time of day, with only the ticks lost; the short form is used exactly at midnight |
| Literals.BytesRoundTrip | objecttoobjectliteral.cs:365-378 | the body of a `byte[]` literal parses back to exactly the bytes in order, and the empty array gives the empty body |
| Literals.EscapeRoundTrip | objecttoobjectliteral.cs:446 | undoubling the backslashes of an escaped string recovers the string |
| Literals.EscapeOnlyBackslashes | objecttoobjectliteral.cs:446 | escaping changes only backslashes: the other characters pass through in order, and the length grows by the number of backslashes |
| ObjectGraph.ElementTypeName | objecttoobjectliteral.cs:302 | the list element type is the generic argument where there is one, and the array element type otherwise |
| ObjectGraph.ArrayPropertyHasNoGenericArgument | objecttoobjectliteral.cs:302 | an array-typed collection has no generic argument, so the lookup as written fails |
| Restrictions.AddAllSpec | objecttoobjectliteral.cs:129-130 | adding restrictions to a dictionary succeeds exactly when the new names are distinct and absent. It then maps each name to its include set and keeps the old entries. A failure names a repeated name |
| Restrictions.BuildRestrictionsSpec | objecttoobjectliteral.cs:129-130 | building the dictionary succeeds exactly when the entity names are distinct. Its keys are then the names, each mapped to its include set. A failure names a name given twice |
| Restrictions.EmitsSpec | objecttoobjectliteral.cs:258-267 | a property is written exactly when its type is unrestricted or includes it and it is not globally excluded; exclusion wins, and an empty include set writes nothing |
| Restrictions.Selected | objecttoobjectliteral.cs:258-267 | the selected properties are exactly the properties the projection lets through, no more of them than there are |
| Restrictions.SelectedAppend | objecttoobjectliteral.cs:258-267 | selection keeps the order of the properties and distributes over concatenation |
| WalkSpec.ScalarLiteral | objecttoobjectliteral.cs:345-452 | `HandleBaseTypes` declines exactly collections, enums and nested objects |
| WalkSpec.WalkRef | objecttoobjectliteral.cs:190-343 | walking an object never removes an entity from the history |
| WalkSpec.WalkProps | objecttoobjectliteral.cs:257-338 | the property loop never removes an entity from the history |
| WalkSpec.WalkProperty | objecttoobjectliteral.cs:279-337 | writing one property never removes an entity from the history |
| WalkSpec.WalkElems | objecttoobjectliteral.cs:473-482 | the element loop never removes an entity from the history |
| WalkFacts.RefAccounted | objecttoobjectliteral.cs:232-253 | a walk adds only graph entities to the history; the expanded entities are exactly those added, each once |
| WalkFacts.PropsAccounted | objecttoobjectliteral.cs:257-338 | the same accounting holds for the property loop |
| WalkFacts.PropertyAccounted | objecttoobjectliteral.cs:296-337 | the same accounting holds for one property, whether a list or a nested object |
| WalkFacts.ElemsAccounted | objecttoobjectliteral.cs:473-482 | the same accounting holds for the element loop |
| WalkFacts.ExpansionBound | objecttoobjectliteral.cs:232-253 | no entity is expanded twice, and a walk expands at most as many objects as the graph has entities outside the history |
| WalkFacts.VisitOutcome | objecttoobjectliteral.cs:201-255 | null writes `Object was NULL`, a special object its constructor and a revisit the reference text, all with the history unchanged. A first visit adds the entity, expands it first and only once, and writes `new T {` ... `}` |
| WalkFacts.ListPropertyOutcome | objecttoobjectliteral.cs:296-327 | a null or empty collection writes `Name = new List<T>()` and visits nothing; a non-empty one writes `Name = new List<T>`, the brace line, the elements joined by separators one level deeper and the closing brace, with the history and expansions of walking the elements |
| WalkFacts.ProjectionThenWalk | objecttoobjectliteral.cs:257-338 | skipping inside the loop equals writing just the selected properties in order |
| WalkFacts.NothingSelected | objecttoobjectliteral.cs:258-267 | when the projection drops every remaining property, the loop writes nothing and visits nothing |
| WalkFacts.EmptyIncludeStillExpands | objecttoobjectliteral.cs:247-267 | a type restricted to an empty include set is still written as `new T {` and `}` and still enters the history |
| WalkFacts.LinkToVisitedIsReference | objecttoobjectliteral.cs:232-245 | in any graph, under any settings, a property referring to an object whose entity is in the history is written as `Name = new T{Key=k} /* Reference */`, with the history unchanged and nothing expanded |
| WalkFacts.SelfReferenceWrittenOnce | objecttoobjectliteral.cs:232-255 | an object whose property refers back to itself is expanded once; the back link becomes a reference, and the walk ends |
| WalkFacts.SeparatorInFront | objecttoobjectliteral.cs:473-482 | after the first element, the loop writes a separator and then what a fresh loop would |
| WalkFacts.ElementsJoined | objecttoobjectliteral.cs:473-482 | the elements are joined by `,` with a line break and the indentation: a separator between neighbours, none before or after |
| WalkFacts.KeylessElementsCollide | objecttoobjectliteral.cs:232-255 | two keyless objects of one type without properties in a list, as the boxed integers of a `List<int>` are: the first is written `new T {` with an empty body, the second as `new T{Key=0} /* Reference */` |
| WalkFacts.ScalarLiteralReadsBack | objecttoobjectliteral.cs:354-448 | every scalar literal reads back as its value. A null string reads as empty, a failed boolean conversion as `false`, and a date loses its ticks |
| Initializer.SerializeSpec | objecttoobjectliteral.cs:110-163 | the output is an error exactly when two restrictions share an entity name, and the error names it. Otherwise it is the exclude comment, the restriction comments when restrictions were given, `var x = `, the root's literal from an empty history, and `;` |
| Initializer.SerializeExpandsEachOnce | objecttoobjectliteral.cs:119-124 | one call expands each entity at most once, whatever cycles the graph has |
| Walker.ToObjectInitializer | objecttoobjectliteral.cs:110-163 | the method returns exactly what `Serialize` describes |
| Walker.ObjectWalker.constructor | objecttoobjectliteral.cs:117-125 | the buffer and the history start empty |
| Walker.ObjectWalker.AppendRestrictionComments | objecttoobjectliteral.cs:146-155 | the loop appends the name line and the allowed-properties line of each restriction, in order |
| Walker.ObjectWalker.WalkObject | objecttoobjectliteral.cs:190-343 | the method appends exactly `WalkRef`'s text and leaves exactly `WalkRef`'s history |
| Walker.ObjectWalker.WalkProperties | objecttoobjectliteral.cs:257-338 | the `foreach` loop with its two `continue` tests and `appendComma` flag appends exactly `WalkProps`'s text and leaves its history |
| Walker.ObjectWalker.WalkPropertyValue | objecttoobjectliteral.cs:279-337 | the loop body after the separator appends exactly `WalkProperty`'s text and leaves its history |
| Walker.ObjectWalker.HandleBaseTypes | objecttoobjectliteral.cs:345-452 | the method reports true exactly for scalar kinds and then appends `Name = ` and the scalar literal, otherwise nothing |
| Walker.ObjectWalker.WalkList | objecttoobjectliteral.cs:462-483 | the element loop appends exactly `WalkElems`'s text and leaves its history |

## Left out

- Reflection is replaced by an explicit graph. This covers `GetProperties`, `GetInterfaces`, `GetGenericArguments` and the `FullName` prefix tests. Each property comes already classified by kind, in the order `GetProperties()` returns.
- A collection property is assumed to hold an `IList`. The cast to `IList` that throws for other enumerables is not modelled.
- Every reflective read is assumed to succeed. The source throws, and `ToObjectInitializer` returns nothing, in these cases:
  - a property getter that throws on the read at objecttoobjectliteral.cs:352, such as an NHibernate lazy proxy read outside its session;
  - any indexer property, such as `String.Chars` or `Dictionary<K,V>.Item`, whose read without an index throws;
  - an object whose runtime type is exactly `object`, whose `BaseType` is null at line 223.
- Non-generic `IList` classes such as `ArrayList` are not modelled: a collection is a generic list or an array.
- Each list element is an object reference, so a list of scalars is modelled only where its elements act as objects. A boxed `Int32` of a `List<int>` has no `Key` property, so every such element is the entity (Int32, 0) (objecttoobjectliteral.cs:26-29). The model covers this case as a keyless node of type `Int32` without properties, which gives exactly the source's text: the first element is written `new Int32 {`, a line break and `}`, and every later one is `new Int32{Key=0} /* Reference */` (line 232). The integer values are lost. `WalkFacts.KeylessElementsCollide` states this. A `List<string>` element makes the property read at objecttoobjectliteral.cs:352 throw on the indexer `Chars`.
- The `Float`, `Double` and `Decimal` cases are left out, because the floating-point text is culture- and precision-dependent. The `Float` case can never match, because the runtime name of `float` is `Single`.
- The company-specific base class is a `Special` node, written as a constructor from its value and display name. It is never recorded in the history. Its placeholder assembly-name test is not modelled.
- An enum value is the opaque name its `ToString()` writes.
- A `Nullable<T>` holding a value is classified by `T`. A nullable enum holding a value is not modelled.
- `Environment.NewLine` is the constant `"\r\n"`.
- The `Debug.WriteLine` calls, the `#if false` blocks and the sample restrictions are not modelled. `Program.cs` is not part of this model.
- `Identity.EntityOf`: the `Key` property is read with `Convert.ToInt64` and kept as an unbounded integer. The 64-bit range and the conversion failures are not modelled. `Int16`, `Int32` and `Int64` values are also unbounded integers.
- `Identity.EntityHash`: the runtime's type and key hash functions are parameters. The serialiser never calls this hash. The history is a `HashSet<Entity>` built without the comparer (objecttoobjectliteral.cs:124), and `hist.Contains(entity, comparer)` at line 232 is LINQ's `Contains`, which scans the set and calls only `Equals`. `Identity.EqualEntitiesHashAlike` therefore has no effect on the output.
- Integers and dates are written by `AppendFormat` in the current culture (objecttoobjectliteral.cs:384, 388, 421, 432). The model writes ASCII digits and a leading `-`, as the invariant culture does. Only the byte loop passes the invariant culture explicitly (line 373).
- A null `globalExcludeProperties`, on which `Split` throws, is not modelled. A null `byte[]`, on which the loop throws, is not modelled either.
- Null restrictions are not modelled. Building the dictionary at objecttoobjectliteral.cs:129-130 also throws on a null `entityRestrictions` array, on a null element of it (the key selector dereferences it) and on a null `EntityName` (a null dictionary key).
- Strings are doubled at backslashes only. A string holding a quote or a line break gives C# that does not compile, as in the source; the model states only what the source does.
- The include list is written as `Dedup` of the given names, which is `HashSet` enumeration order for sets filled once from an array.
- `WalkSpec.WalkProperty`: for an array-typed collection the walk takes the corrected path of the finding below. It names the element type with `ElementTypeName` and writes `Name = new List<E>...`. The source throws at objecttoobjectliteral.cs:302, and `ToObjectInitializer` returns nothing. So `Serialize` is `Ok` on graphs on which the source fails. The text it writes for such a property still does not compile, since a `List<E>` cannot be assigned to an `E[]` property.
- `Walker.ObjectWalker.HandleBaseTypes` computes each right-hand side and then appends `Name = ` with it once. The source formats each whole assignment in one `AppendFormat`; the text is the same.
- `Walker.ObjectWalker.WalkProperties` and `Walker.ObjectWalker.WalkPropertyValue` are the property loop and its body inside `WalkObject`, split into methods of their own. `Walker.ObjectWalker.AppendRestrictionComments` is the comment loop inside `ToObjectInitializer`.
- The sub-second ticks of a `DateTime` are dropped by the literal, and the model keeps them only to say so.

## Findings

| source | as written | input that shows it | evidently intended | confidence | as-written member | corrected member |
|---|---|---|---|---|---|---|
| objecttoobjectliteral.cs:302 | the element type of every collection property is read as `PropertyType.GetGenericArguments()[0].Name` | a property of array type such as `Department[]` or `long[]`: arrays implement `IList` but have no generic arguments, so the index throws. A non-generic `IList` class such as `ArrayList` throws there too | the walk goes on past an array-typed collection, naming the array's element type. The collection is still written as `new List<E>`, which does not compile for an array property; hand-written initializers in Program.cs write arrays as `new E[] {…}` | high that it throws; medium on the intended text; not executed | ObjectGraph.ArrayPropertyHasNoGenericArgument | ObjectGraph.ElementTypeName |
