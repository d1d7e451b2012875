/**
  What the walk guarantees about identities: the history only grows, and only
  by entities of the graph; every entity written as `new T { ... }` was not in
  the history before and is written so once; so a walk expands at most as many
  objects as the graph has identities outside the history, cycles included.
 */
module WalkFacts {
  import opened Wrappers
  import opened Seqs
  import opened Text
  import opened Literals
  import opened Identity
  import opened ObjectGraph
  import opened Restrictions
  import opened WalkSpec

  lemma {:induction false} RefAccounted(c: Config, r: Ref, level: nat, h: set<Entity>)
    requires Closed(c.graph) && RefIn(c.graph, r)
    ensures Accounted(h, Universe(c.graph), WalkRef(c, r, level, h))
    decreases |Universe(c.graph) - h|, 0, 0
  {
    if r.Obj? && c.graph[r.id].Plain? {
      var node := c.graph[r.id];
      var e := NodeEntity(node);
      if e !in h {
        var name := DisplayName(node.runtimeType);
        DiffDrops(Universe(c.graph), h, e);
        PropsAccounted(c, name, node.props, 0, level, false, h + {e});
        var body := WalkProps(c, name, node.props, 0, level, false, h + {e});
        NoDupAppend([e], body.expanded);
      }
    }
  }

  lemma {:induction false} PropsAccounted(c: Config, typeName: string, ps: seq<Property>, i: nat, level: nat, appendComma: bool, h: set<Entity>)
    requires Closed(c.graph) && i <= |ps| && forall p :: p in ps ==> PropertyClosed(c.graph, p)
    ensures Accounted(h, Universe(c.graph), WalkProps(c, typeName, ps, i, level, appendComma, h))
    decreases |Universe(c.graph) - h|, 3, |ps| - i
  {
    if i < |ps| {
      if !Emits(c.restrictions, c.exclude, typeName, ps[i].name) {
        PropsAccounted(c, typeName, ps, i + 1, level, appendComma, h);
      } else {
        PropertyAccounted(c, ps[i], level, h);
        var first := WalkProperty(c, ps[i], level, h);
        DiffShrinks(Universe(c.graph), h, first.hist);
        PropsAccounted(c, typeName, ps, i + 1, level, true, first.hist);
        var rest := WalkProps(c, typeName, ps, i + 1, level, true, first.hist);
        NoDupAppend(first.expanded, rest.expanded);
      }
    }
  }

  lemma {:induction false} PropertyAccounted(c: Config, p: Property, level: nat, h: set<Entity>)
    requires Closed(c.graph) && PropertyClosed(c.graph, p)
    ensures Accounted(h, Universe(c.graph), WalkProperty(c, p, level, h))
    decreases |Universe(c.graph) - h|, 2, 0
  {
    if ScalarLiteral(p.value).None? {
      match p.value
      case List(_, elems) =>
        if elems.Some? && |elems.value| > 0 {
          ElemsAccounted(c, elems.value, 0, level + 1, false, h);
        }
      case EnumName(_) =>
      case Object(r) =>
        RefAccounted(c, r, level + 1, h);
    }
  }

  lemma {:induction false} ElemsAccounted(c: Config, es: seq<Ref>, i: nat, level: nat, appendComma: bool, h: set<Entity>)
    requires Closed(c.graph) && i <= |es| && forall r :: r in es ==> RefIn(c.graph, r)
    ensures Accounted(h, Universe(c.graph), WalkElems(c, es, i, level, appendComma, h))
    decreases |Universe(c.graph) - h|, 1, |es| - i
  {
    if i < |es| {
      RefAccounted(c, es[i], level, h);
      var first := WalkRef(c, es[i], level, h);
      DiffShrinks(Universe(c.graph), h, first.hist);
      ElemsAccounted(c, es, i + 1, level, true, first.hist);
      var rest := WalkElems(c, es, i + 1, level, true, first.hist);
      NoDupAppend(first.expanded, rest.expanded);
    }
  }

  /**
    No object is expanded twice, and a walk expands no more objects than the
    graph has identities outside the history it starts from.
   */
  lemma ExpansionBound(c: Config, r: Ref, level: nat, h: set<Entity>)
    requires Closed(c.graph) && RefIn(c.graph, r)
    ensures NoDup(WalkRef(c, r, level, h).expanded)
    ensures |WalkRef(c, r, level, h).expanded| <= |Universe(c.graph) - h|
  {
    RefAccounted(c, r, level, h);
    NoDupBound(WalkRef(c, r, level, h).expanded, Universe(c.graph) - h);
  }

  /** The outcome of `WalkObject` on each kind of reference, read off the walk. */
  lemma VisitOutcome(c: Config, r: Ref, level: nat, h: set<Entity>)
    requires Closed(c.graph) && RefIn(c.graph, r)
    ensures r.Null? ==> WalkRef(c, r, level, h) == Walked(NullText, h, [])
    ensures r.Obj? && c.graph[r.id].Special? ==>
      var n := c.graph[r.id];
      WalkRef(c, r, level, h) == Walked(SpecialText(DisplayName(n.runtimeType), n.enumValue, n.displayName), h, [])
    ensures r.Obj? && c.graph[r.id].Plain? && NodeEntity(c.graph[r.id]) in h ==>
      var n := c.graph[r.id];
      WalkRef(c, r, level, h) == Walked(ReferenceText(DisplayName(n.runtimeType), NodeEntity(n).key), h, [])
    ensures r.Obj? && c.graph[r.id].Plain? && NodeEntity(c.graph[r.id]) !in h ==>
      var n := c.graph[r.id];
      var e := NodeEntity(n);
      var w := WalkRef(c, r, level, h);
      && e in w.hist
      && |w.expanded| >= 1 && w.expanded[0] == e && e !in w.expanded[1..]
      && w.text[..|ObjectOpen(DisplayName(n.runtimeType))|] == ObjectOpen(DisplayName(n.runtimeType))
      && w.text[|w.text| - |Closing(level)|..] == Closing(level)
  {
    if r.Obj? && c.graph[r.id].Plain? && NodeEntity(c.graph[r.id]) !in h {
      var n := c.graph[r.id];
      var e := NodeEntity(n);
      var name := DisplayName(n.runtimeType);
      RefAccounted(c, r, level, h);
      var w := WalkRef(c, r, level, h);
      DiffDrops(Universe(c.graph), h, e);
      var body := WalkProps(c, name, n.props, 0, level, false, h + {e});
      assert w.text == ObjectOpen(name) + body.text + Closing(level);
      assert w.expanded == [e] + body.expanded;
      assert e !in w.expanded[1..] by {
        forall k | 1 <= k < |w.expanded| ensures w.expanded[k] != e {
          assert w.expanded[0] != w.expanded[k];
        }
      }
    }
  }

  /**
    A collection property: a null or empty collection writes `Name = new
    List<T>()` and visits nothing; any other writes `Name = new List<T>`, the
    opening brace on its own line, its elements joined by separators one level
    deeper, and the closing brace, visiting the elements in order.
   */
  lemma ListPropertyOutcome(c: Config, p: Property, level: nat, h: set<Entity>)
    requires Closed(c.graph) && PropertyClosed(c.graph, p) && p.value.List?
    ensures p.value.elems.None? || |p.value.elems.value| == 0 ==>
      WalkProperty(c, p, level, h) == Walked(EmptyList(p.name, ElementTypeName(p.value.listType)), h, [])
    ensures p.value.elems.Some? && |p.value.elems.value| > 0 ==>
      var es := p.value.elems.value;
      var inner := WalkElems(c, es, 0, level + 1, false, h);
      && WalkProperty(c, p, level, h).hist == inner.hist
      && WalkProperty(c, p, level, h).expanded == inner.expanded
      && WalkProperty(c, p, level, h).text
         == ListOpen(p.name, ElementTypeName(p.value.listType), level)
            + Join(ElementSeparator(true, level + 1), ElemTexts(c, es, 0, level + 1, h))
            + Closing(level)
  {
    if p.value.elems.Some? && |p.value.elems.value| > 0 {
      ElementsJoined(c, p.value.elems.value, 0, level + 1, h);
    }
  }

  /** The property loop, stated the other way round: filter first, then write every remaining property. */
  function WalkAll(c: Config, ps: seq<Property>, level: nat, appendComma: bool, h: set<Entity>): (w: Walked)
    requires Closed(c.graph) && forall p :: p in ps ==> PropertyClosed(c.graph, p)
    decreases |ps|
  {
    if ps == [] then Walked("", h, [])
    else
      var first := WalkProperty(c, ps[0], level, h);
      var rest := WalkAll(c, ps[1..], level, true, first.hist);
      Walked(PropertySeparator(appendComma, level) + first.text + rest.text, rest.hist, first.expanded + rest.expanded)
  }

  /**
    Skipping inside the loop is the same as writing the properties the
    projection selects, in their order: a property is written exactly when it
    is selected.
   */
  lemma {:induction false} ProjectionThenWalk(c: Config, typeName: string, ps: seq<Property>, i: nat, level: nat, appendComma: bool, h: set<Entity>)
    requires Closed(c.graph) && i <= |ps| && forall p :: p in ps ==> PropertyClosed(c.graph, p)
    ensures WalkProps(c, typeName, ps, i, level, appendComma, h)
         == WalkAll(c, Selected(c.restrictions, c.exclude, typeName, ps[i..]), level, appendComma, h)
    decreases |ps| - i
  {
    var sel := Selected(c.restrictions, c.exclude, typeName, ps[i..]);
    if i < |ps| {
      assert ps[i..][1..] == ps[i + 1..];
      var next := Selected(c.restrictions, c.exclude, typeName, ps[i + 1..]);
      if Emits(c.restrictions, c.exclude, typeName, ps[i].name) {
        assert sel == [ps[i]] + next;
        assert sel[1..] == next;
        var first := WalkProperty(c, ps[i], level, h);
        ProjectionThenWalk(c, typeName, ps, i + 1, level, true, first.hist);
      } else {
        assert sel == next;
        ProjectionThenWalk(c, typeName, ps, i + 1, level, appendComma, h);
      }
    } else {
      assert ps[i..] == [];
    }
  }

  /** When the projection drops every property from `i` on, the rest of the loop writes nothing and visits nothing. */
  lemma {:induction false} NothingSelected(c: Config, typeName: string, ps: seq<Property>, i: nat, level: nat, appendComma: bool, h: set<Entity>)
    requires Closed(c.graph) && i <= |ps| && forall p :: p in ps ==> PropertyClosed(c.graph, p)
    requires forall k :: i <= k < |ps| ==> !Emits(c.restrictions, c.exclude, typeName, ps[k].name)
    ensures WalkProps(c, typeName, ps, i, level, appendComma, h) == Walked("", h, [])
    decreases |ps| - i
  {
    if i < |ps| {
      NothingSelected(c, typeName, ps, i + 1, level, appendComma, h);
    }
  }

  /**
    A type restricted to an empty include set is still expanded: it writes
    `new T {`, a line break and `}`, and its identity enters the history.
   */
  lemma EmptyIncludeStillExpands(c: Config, id: NodeId, level: nat, h: set<Entity>)
    requires Closed(c.graph) && id in c.graph && c.graph[id].Plain? && NodeEntity(c.graph[id]) !in h
    requires DisplayName(c.graph[id].runtimeType) in c.restrictions && c.restrictions[DisplayName(c.graph[id].runtimeType)] == {}
    ensures WalkRef(c, Obj(id), level, h)
         == Walked(ObjectOpen(DisplayName(c.graph[id].runtimeType)) + Closing(level), h + {NodeEntity(c.graph[id])}, [NodeEntity(c.graph[id])])
  {
    var n := c.graph[id];
    var name := DisplayName(n.runtimeType);
    var e := NodeEntity(n);
    DiffDrops(Universe(c.graph), h, e);
    NothingSelected(c, name, n.props, 0, level, false, h + {e});
    assert ObjectOpen(name) + "" == ObjectOpen(name);
    assert [e] + [] == [e];
  }

  /** A one-object graph whose property `link` refers back to the object itself. */
  function SelfLoop(t: TypeId, key: int, link: string): (g: Graph)
    ensures Closed(g) && 0 in g && g[0].Plain?
    ensures NodeEntity(g[0]) == Entity(t, key)
  {
    map[0 := Plain(t, Some(key), [Property(link, Object(Obj(0)))])]
  }

  /**
    A property that refers to an object whose entity is already in the history
    is written as `Name = new T{Key=k} /* Reference */`; nothing is visited.
   */
  lemma LinkToVisitedIsReference(c: Config, p: Property, level: nat, h: set<Entity>)
    requires Closed(c.graph) && PropertyClosed(c.graph, p)
    requires p.value.Object? && p.value.child.Obj? && c.graph[p.value.child.id].Plain?
    requires NodeEntity(c.graph[p.value.child.id]) in h
    ensures var n := c.graph[p.value.child.id];
      WalkProperty(c, p, level, h) == Walked(Assign(p.name) + ReferenceText(DisplayName(n.runtimeType), NodeEntity(n).key), h, [])
  {
  }

  /**
    A parent link back to the object being written ends the walk: the object
    is expanded once, and the link is written as a `Key`-only reference.
   */
  lemma SelfReferenceWrittenOnce(t: TypeId, key: int, link: string, level: nat)
    ensures WalkRef(Config(SelfLoop(t, key, link), map[], {}), Obj(0), level, {})
         == Walked(ObjectOpen(DisplayName(t)) + PropertySeparator(false, level) + Assign(link)
                   + ReferenceText(DisplayName(t), key) + Closing(level),
                   {Entity(t, key)}, [Entity(t, key)])
  {
    var g := SelfLoop(t, key, link);
    var c := Config(g, map[], {});
    var p := Property(link, Object(Obj(0)));
    var e := Entity(t, key);
    var name := DisplayName(t);
    var ref := Assign(link) + ReferenceText(name, key);
    var sep := PropertySeparator(false, level);
    assert g[0].props == [p];
    assert {} + {e} == {e};
    DiffDrops(Universe(g), {}, e);
    LinkToVisitedIsReference(c, p, level, {e});
    assert WalkProps(c, name, [p], 1, level, true, {e}) == Walked("", {e}, []);
    assert sep + ref + "" == sep + ref;
    var body := WalkProps(c, name, [p], 0, level, false, {e});
    assert body == Walked(sep + ref, {e}, []);
    assert WalkRef(c, Obj(0), level, {}) == Walked(ObjectOpen(name) + body.text + Closing(level), {e}, [e] + []);
    assert [e] + [] == [e];
    Regroup(ObjectOpen(name), sep, Assign(link), ReferenceText(name, key), Closing(level));
  }

  /**
    Two keyless objects of one type without properties, as boxed integers of a
    `List<int>` are: the first is written `new T {` with an empty body, and the
    second, which has the same entity (key 0), as a reference.
   */
  lemma KeylessElementsCollide(t: TypeId, level: nat)
    ensures var g := map[0 := Plain(t, None, []), 1 := Plain(t, None, [])];
      Closed(g) &&
      WalkElems(Config(g, map[], {}), [Obj(0), Obj(1)], 0, level, false, {}).text
        == ObjectOpen(DisplayName(t)) + Closing(level) + ElementSeparator(true, level) + ReferenceText(DisplayName(t), 0)
  {
    var g := map[0 := Plain(t, None, []), 1 := Plain(t, None, [])];
    var c := Config(g, map[], {});
    var es := [Obj(0), Obj(1)];
    var e := Entity(t, 0);
    var name := DisplayName(t);
    assert NodeEntity(g[0]) == e && NodeEntity(g[1]) == e;
    assert {} + {e} == {e};
    DiffDrops(Universe(g), {}, e);
    assert WalkProps(c, name, [], 0, level, false, {e}) == Walked("", {e}, []);
    var first := WalkRef(c, es[0], level, {});
    assert first.text == ObjectOpen(name) + "" + Closing(level);
    assert first.hist == {e};
    var second := WalkRef(c, es[1], level, {e});
    assert second == Walked(ReferenceText(name, 0), {e}, []);
    assert WalkElems(c, es, 2, level, true, {e}).text == "";
    assert WalkElems(c, es, 1, level, true, {e}).text == ElementSeparator(true, level) + second.text + "";
    assert WalkElems(c, es, 0, level, false, {}).text
        == "" + first.text + WalkElems(c, es, 1, level, true, {e}).text;
    assert ObjectOpen(name) + "" == ObjectOpen(name);
    assert ElementSeparator(true, level) + second.text + "" == ElementSeparator(true, level) + second.text;
    assert "" + first.text == first.text;
    AppendAssoc(ObjectOpen(name) + Closing(level), ElementSeparator(true, level), second.text, "");
  }

  /** The texts of the elements of a list from `i` on, each walked from the history the previous one left. */
  function ElemTexts(c: Config, es: seq<Ref>, i: nat, level: nat, h: set<Entity>): (ts: seq<string>)
    requires Closed(c.graph) && i <= |es| && forall r :: r in es ==> RefIn(c.graph, r)
    ensures |ts| == |es| - i
    decreases |es| - i
  {
    if i == |es| then []
    else
      var first := WalkRef(c, es[i], level, h);
      [first.text] + ElemTexts(c, es, i + 1, level, first.hist)
  }

  /** After the first element, the loop writes what a fresh loop over the same elements would, behind one separator. */
  lemma SeparatorInFront(c: Config, es: seq<Ref>, i: nat, level: nat, h: set<Entity>)
    requires Closed(c.graph) && i < |es| && forall r :: r in es ==> RefIn(c.graph, r)
    ensures WalkElems(c, es, i, level, true, h).text == ElementSeparator(true, level) + WalkElems(c, es, i, level, false, h).text
  {
    var first := WalkRef(c, es[i], level, h);
    var rest := WalkElems(c, es, i + 1, level, true, first.hist);
    assert WalkElems(c, es, i, level, false, h).text == "" + first.text + rest.text;
    assert "" + first.text == first.text;
    AppendAssoc2(ElementSeparator(true, level), first.text, rest.text);
  }

  /**
    `WalkList` writes its elements joined by `,` + line break + indentation:
    a separator between neighbours, none before the first or after the last.
   */
  lemma {:induction false} ElementsJoined(c: Config, es: seq<Ref>, i: nat, level: nat, h: set<Entity>)
    requires Closed(c.graph) && i <= |es| && forall r :: r in es ==> RefIn(c.graph, r)
    ensures WalkElems(c, es, i, level, false, h).text == Join(ElementSeparator(true, level), ElemTexts(c, es, i, level, h))
    decreases |es| - i
  {
    if i < |es| {
      var sep := ElementSeparator(true, level);
      var first := WalkRef(c, es[i], level, h);
      var ts := ElemTexts(c, es, i, level, h);
      var rest := ElemTexts(c, es, i + 1, level, first.hist);
      assert ts == [first.text] + rest;
      assert WalkElems(c, es, i, level, false, h).text == "" + first.text + WalkElems(c, es, i + 1, level, true, first.hist).text;
      assert "" + first.text == first.text;
      if i + 1 < |es| {
        ElementsJoined(c, es, i + 1, level, first.hist);
        SeparatorInFront(c, es, i + 1, level, first.hist);
        assert ts[1..] == rest;
        AppendAssoc2(first.text, sep, Join(sep, rest));
      } else {
        assert rest == [];
        assert first.text + "" == first.text;
      }
    }
  }

  /**
    Each scalar literal reads back as the value it was written from: integers
    through their decimal text, `Int64` with the `L` suffix, strings by
    undoubling backslashes inside the quotes, `byte[]` and `DateTime` through
    their argument lists. Only what the literal cannot carry is lost: a null
    string reads as the empty string, a failed boolean conversion as `false`,
    and the sub-second ticks of a date as zero.
   */
  lemma ScalarLiteralReadsBack(v: Value)
    requires ScalarLiteral(v).Some?
    ensures v.NullableNull? ==> ScalarLiteral(v).value == "null"
    ensures v.Int? ==> ParseInt(ScalarLiteral(v).value) == Some(v.i)
    ensures v.Long? ==>
      var t := ScalarLiteral(v).value;
      |t| >= 2 && t[|t| - 1] == 'L' && ParseInt(t[..|t| - 1]) == Some(v.l)
    ensures v.Bool? ==> (ScalarLiteral(v).value == "true" <==> v.b == Some(true))
    ensures v.Bool? ==> (ScalarLiteral(v).value == "false" <==> v.b != Some(true))
    ensures v.Date? ==> ParseDate(ScalarLiteral(v).value) == Some(v.dt.(ticks := 0))
    ensures v.Str? ==>
      var t := ScalarLiteral(v).value;
      |t| >= 2 && t[0] == '"' && t[|t| - 1] == '"' && UndoubleBackslashes(t[1..|t| - 1]) == v.s.GetOr("")
    ensures v.Bytes? ==>
      var t := ScalarLiteral(v).value;
      |t| >= 12 && t[..11] == "new byte[]{" && t[|t| - 1] == '}' && ParseBytes(t[11..|t| - 1]) == Some(v.bs)
  {
    var t := ScalarLiteral(v).value;
    match v
    case Int(i) => IntTextRoundTrip(i);
    case Long(l) =>
      IntTextRoundTrip(l);
      assert t[..|t| - 1] == IntText(l);
    case Date(dt) => DateLiteralRoundTrip(dt);
    case Str(s) =>
      EscapeRoundTrip(s.GetOr(""));
      assert t[1..|t| - 1] == EscapeBackslashes(s.GetOr(""));
    case Bytes(bs) =>
      BytesRoundTrip(bs);
      assert t[11..|t| - 1] == BytesText(bs);
    case _ =>
  }
}
