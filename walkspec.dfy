/**
  What one call of `WalkObject` writes and how it changes the history set,
  stated as functions of the graph, the projection settings, the indentation
  level and the history on entry. The walk terminates on every graph, cyclic or
  not: an object is expanded only when its entity is not yet in the history, and
  the entity is added before any of its properties is walked, so the number of
  graph entities outside the history drops at every expansion.
 */
module WalkSpec {
  import opened Wrappers
  import opened Seqs
  import opened Text
  import opened Literals
  import opened Identity
  import opened ObjectGraph
  import opened Restrictions

  /** The graph and the two projection settings, fixed for one serialisation. */
  datatype Config = Config(graph: Graph, restrictions: map<string, set<string>>, exclude: set<string>)

  /**
    The outcome of walking: the text appended, the history afterwards, and the
    entities that were expanded (written as `new T { ... }`), in order.
   */
  datatype Walked = Walked(text: string, hist: set<Entity>, expanded: seq<Entity>)

  /**
    The history only grows, and only by entities of the graph; the expanded
    entities are exactly those added, each once.
   */
  ghost predicate Accounted(h: set<Entity>, u: set<Entity>, w: Walked) {
    && h <= w.hist <= h + u
    && NoDup(w.expanded)
    && forall e :: e in w.expanded <==> e in w.hist && e !in h
  }

  const NullText: string := "Object was NULL"

  /** `new T{Key=k} /* Reference */`, written for an entity already in the history. */
  function ReferenceText(typeName: string, key: int): string {
    "new " + typeName + "{" + KeyProperty + "=" + IntText(key) + "} /* Reference */"
  }

  /** `new T(value,"display")`, written for an object of the company-specific base class. */
  function SpecialText(typeName: string, enumValue: int, displayName: string): string {
    "new " + typeName + "(" + IntText(enumValue) + ",\"" + displayName + "\")"
  }

  /**
    The right-hand side `HandleBaseTypes` writes after `Name = `; `None` for the
    kinds it leaves to `WalkObject` (collections, enums and nested objects).
   */
  function ScalarLiteral(v: Value): (r: Option<string>)
    ensures r.None? <==> v.List? || v.EnumName? || v.Object?
  {
    match v
    case NullableNull => Some("null")
    case Bytes(bs) => Some("new byte[]{" + BytesText(bs) + "}")
    case Int(i) => Some(IntText(i))
    case Long(l) => Some(IntText(l) + "L")
    case Bool(b) => Some(if b.GetOr(false) then "true" else "false")
    case Date(dt) => Some(DateText(dt))
    case Str(s) => Some("\"" + EscapeBackslashes(s.GetOr("")) + "\"")
    case _ => None
  }

  /** `new T {`, which opens an expanded object. */
  function ObjectOpen(typeName: string): string {
    "new " + typeName + " {"
  }

  /** A line break, the indentation and `}`: what closes an expanded object or a non-empty collection. */
  function Closing(level: nat): string {
    NewLine + Tabs(level) + "}"
  }

  /** `Name = `, which starts a scalar or nested-object assignment. */
  function Assign(propName: string): string {
    propName + " = "
  }

  /** `Name = new List<T>` and the opening brace of a non-empty collection on a line of its own. */
  function ListOpen(propName: string, elementType: string, level: nat): string {
    propName + " = new List<" + elementType + ">" + NewLine + Tabs(level) + "{" + NewLine + Tabs(level + 1)
  }

  /** `Name = new List<T>()`, written for a null or empty collection. */
  function EmptyList(propName: string, elementType: string): string {
    propName + " = new List<" + elementType + ">()"
  }

  /** An enum assignment; the indentation comes again after the separator has written it. */
  function EnumAssign(propName: string, enumName: string, level: nat): string {
    Tabs(level) + propName + " = " + enumName
  }

  /** The separator `WalkObject` writes before a property: a line break, preceded by a comma after the first. */
  function PropertySeparator(appendComma: bool, level: nat): string {
    if appendComma then "," + NewLine + Tabs(level) else NewLine + Tabs(level)
  }

  /** The separator `WalkList` writes before an element: nothing before the first, a comma and line break after. */
  function ElementSeparator(appendComma: bool, level: nat): string {
    if appendComma then "," + NewLine + Tabs(level) else ""
  }

  /** `WalkObject(r, level)` entered with history `h`. */
  function WalkRef(c: Config, r: Ref, level: nat, h: set<Entity>): (w: Walked)
    requires Closed(c.graph) && RefIn(c.graph, r)
    ensures h <= w.hist
    decreases |Universe(c.graph) - h|, 0, 0
  {
    match r
    case Null => Walked(NullText, h, [])
    case Obj(id) =>
      var node := c.graph[id];
      var name := DisplayName(node.runtimeType);
      match node
      case Special(_, v, d) => Walked(SpecialText(name, v, d), h, [])
      case Plain(_, _, props) =>
        var e := NodeEntity(node);
        if e in h then Walked(ReferenceText(name, e.key), h, [])
        else
          DiffDrops(Universe(c.graph), h, e);
          var body := WalkProps(c, name, props, 0, level, false, h + {e});
          Walked(ObjectOpen(name) + body.text + Closing(level), body.hist, [e] + body.expanded)
  }

  /**
    The property loop of `WalkObject` from property `i` on: a property the
    projection drops is skipped, any other is written after its separator.
   */
  function WalkProps(c: Config, typeName: string, ps: seq<Property>, i: nat, level: nat, appendComma: bool, h: set<Entity>): (w: Walked)
    requires Closed(c.graph) && i <= |ps| && forall p :: p in ps ==> PropertyClosed(c.graph, p)
    ensures h <= w.hist
    decreases |Universe(c.graph) - h|, 3, |ps| - i
  {
    if i == |ps| then Walked("", h, [])
    else if !Emits(c.restrictions, c.exclude, typeName, ps[i].name) then
      WalkProps(c, typeName, ps, i + 1, level, appendComma, h)
    else
      var first := WalkProperty(c, ps[i], level, h);
      DiffShrinks(Universe(c.graph), h, first.hist);
      var rest := WalkProps(c, typeName, ps, i + 1, level, true, first.hist);
      Walked(PropertySeparator(appendComma, level) + first.text + rest.text, rest.hist, first.expanded + rest.expanded)
  }

  /** One written property: a scalar, a collection, an enum or a nested object. */
  function WalkProperty(c: Config, p: Property, level: nat, h: set<Entity>): (w: Walked)
    requires Closed(c.graph) && PropertyClosed(c.graph, p)
    ensures h <= w.hist
    decreases |Universe(c.graph) - h|, 2, 0
  {
    var lit := ScalarLiteral(p.value);
    if lit.Some? then Walked(Assign(p.name) + lit.value, h, [])
    else
      match p.value
      case List(lt, elems) =>
        var tn := ElementTypeName(lt);
        if elems.Some? && |elems.value| > 0 then
          var inner := WalkElems(c, elems.value, 0, level + 1, false, h);
          Walked(ListOpen(p.name, tn, level) + inner.text + Closing(level), inner.hist, inner.expanded)
        else Walked(EmptyList(p.name, tn), h, [])
      case EnumName(n) => Walked(EnumAssign(p.name, n, level), h, [])
      case Object(r) =>
        var child := WalkRef(c, r, level + 1, h);
        Walked(Assign(p.name) + child.text, child.hist, child.expanded)
  }

  /** `WalkList(elems, level)` from element `i` on: each element walked in turn, history threaded through. */
  function WalkElems(c: Config, es: seq<Ref>, i: nat, level: nat, appendComma: bool, h: set<Entity>): (w: Walked)
    requires Closed(c.graph) && i <= |es| && forall r :: r in es ==> RefIn(c.graph, r)
    ensures h <= w.hist
    decreases |Universe(c.graph) - h|, 1, |es| - i
  {
    if i == |es| then Walked("", h, [])
    else
      var first := WalkRef(c, es[i], level, h);
      DiffShrinks(Universe(c.graph), h, first.hist);
      var rest := WalkElems(c, es, i + 1, level, true, first.hist);
      Walked(ElementSeparator(appendComma, level) + first.text + rest.text, rest.hist, first.expanded + rest.expanded)
  }
}
