/**
  The object graph the serialiser walks, with reflection replaced by explicit
  descriptors: each object is a node holding its runtime type, the value of
  its `Key` property (if the type has one) and its public properties in the
  order `GetProperties()` returns them, each already classified by kind.
 */
module ObjectGraph {
  import opened Wrappers
  import opened Identity
  import opened Literals

  type NodeId = nat

  /** A reference-typed value: `null` or an object of the graph. */
  datatype Ref = Null | Obj(id: NodeId)

  /** The declared type of a collection property: a generic collection of one type argument, or an array. */
  datatype ListType = GenericList(typeArgument: string) | ArrayOf(elementName: string)

  /** A property value, classified the way `WalkObject` and `HandleBaseTypes` tell kinds apart. */
  datatype Value =
    | NullableNull                          // a `Nullable<T>` property holding null
    | Int(i: int)                           // Int16 or Int32
    | Long(l: int)                          // Int64
    | Bool(b: Option<bool>)                 // None: a value `Convert.ToBoolean` rejects
    | Date(dt: DateTime)
    | Str(s: Option<string>)                // None: a null string
    | Bytes(bs: seq<Byte>)                  // byte[]
    | EnumName(name: string)                // an enum, as its `ToString()` writes it
    | List(listType: ListType, elems: Option<seq<Ref>>)   // IList / IList<T> / IEnumerable<T>; None: null
    | Object(child: Ref)                    // any other property: a nested object

  datatype Property = Property(name: string, value: Value)

  /**
    An object of the graph. `Special` is a type derived from the company-specific
    base class, which is written as a constructor call from its `Value` and
    `DisplayName` and is never recorded as an entity.
   */
  datatype Node =
    | Plain(runtimeType: TypeId, key: Option<int>, props: seq<Property>)
    | Special(runtimeType: TypeId, enumValue: int, displayName: string)

  type Graph = map<NodeId, Node>

  predicate RefIn(g: Graph, r: Ref) {
    r.Obj? ==> r.id in g
  }

  /** Every object the property refers to is a node of `g`. */
  predicate PropertyClosed(g: Graph, p: Property) {
    match p.value
    case Object(r) => RefIn(g, r)
    case List(_, Some(es)) => forall r :: r in es ==> RefIn(g, r)
    case _ => true
  }

  /** No reference leaves the graph (in the heap every reference leads to an object). */
  predicate Closed(g: Graph) {
    forall id, p :: id in g && g[id].Plain? && p in g[id].props ==> PropertyClosed(g, p)
  }

  /** `new Entity(obj)` for a node. */
  function NodeEntity(n: Node): Entity {
    EntityOf(n.runtimeType, if n.Plain? then n.key else None)
  }

  /** The identities of all expandable objects of the graph. */
  function Universe(g: Graph): set<Entity> {
    set id | id in g && g[id].Plain? :: NodeEntity(g[id])
  }

  /**
    As written, the element type of a collection property is
    `PropertyType.GetGenericArguments()[0].Name`. An array type has no generic
    arguments, so the index is out of range there: `None` stands for that exception.
   */
  function GenericArgumentName(t: ListType): Option<string> {
    match t
    case GenericList(a) => Some(a)
    case ArrayOf(_) => None
  }

  /** An array-typed property such as `Department[]` makes the element-type lookup throw. */
  lemma ArrayPropertyHasNoGenericArgument(element: string)
    ensures GenericArgumentName(ArrayOf(element)) == None
  {
  }

  /**
    The element type name the serialiser evidently means to write: the generic
    argument where there is one, the array's element type otherwise.
   */
  function ElementTypeName(t: ListType): (n: string)
    ensures GenericArgumentName(t).Some? ==> n == GenericArgumentName(t).value
    ensures t.ArrayOf? ==> n == t.elementName
  {
    match t
    case GenericList(a) => a
    case ArrayOf(e) => e
  }
}
