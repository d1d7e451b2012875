/**
  The serialiser itself: `ToObjectInitializer` writes the header comments and
  `var x = ` followed by the walk of the root object, and the walk appends to
  one shared buffer `sb` while it records visited entities in `hist`. The
  buffer and the history, shared by the recursive calls of the source, are the
  fields of an `ObjectWalker`; each method is proved to append exactly the text
  the walk specification gives and to leave `hist` as it says.
 */
module Walker {
  import opened Wrappers
  import opened Seqs
  import opened Text
  import opened Literals
  import opened Identity
  import opened ObjectGraph
  import opened Restrictions
  import opened WalkSpec
  import opened Initializer

  /**
    `ToObjectInitializer`: builds the projection settings, writes the comment
    header, then `var x = `, the walk of the root object and `;`. A repeated
    entity name among the restrictions makes the dictionary build fail before
    anything is written.
   */
  method ToObjectInitializer(g: Graph, root: Ref, globalExcludeProperties: string, entityRestrictions: seq<Restriction>)
      returns (r: Result<string, ConfigError>)
    requires Closed(g) && RefIn(g, root)
    ensures r == Serialize(g, root, globalExcludeProperties, entityRestrictions)
  {
    var built := BuildRestrictions(entityRestrictions);
    if built.Err? {
      return Err(built.error);
    }
    var restrictions := built.value;
    var excludeProperties := Split(globalExcludeProperties, ',');
    var exclude := set x | x in excludeProperties;
    assert exclude == ExcludeSet(globalExcludeProperties);
    var walker := new ObjectWalker(Config(g, restrictions, exclude));

    if |excludeProperties| > 0 {
      walker.sb := walker.sb + (ExcludeHeading + NewLine);
      walker.sb := walker.sb + ("//  " + globalExcludeProperties + NewLine);
      AppendAssoc2("", ExcludeHeading + NewLine, "//  " + globalExcludeProperties + NewLine);
    }
    ghost var header := walker.sb;
    assert header == ExcludeComment(globalExcludeProperties);

    if |restrictions| > 0 {
      walker.sb := walker.sb + (RestrictedHeading + NewLine);
      walker.AppendRestrictionComments(entityRestrictions);
      AppendAssoc2(header, RestrictedHeading + NewLine, RestrictionComments(entityRestrictions));
    }
    assert walker.sb == header + RestrictedComment(entityRestrictions, restrictions);

    walker.sb := walker.sb + Declaration;
    ghost var prefix := walker.sb;
    ghost var c := Config(g, restrictions, ExcludeSet(globalExcludeProperties));
    assert walker.cfg == c && walker.hist == {};
    walker.WalkObject(root, 0);
    ghost var rootText := WalkRef(c, root, 0, {}).text;
    assert walker.sb == prefix + rootText;
    walker.sb := walker.sb + ";";
    assert Serialize(g, root, globalExcludeProperties, entityRestrictions)
        == Ok(ExcludeComment(globalExcludeProperties) + RestrictedComment(entityRestrictions, restrictions)
              + Declaration + rootText + ";");
    return Ok(walker.sb);
  }

  class ObjectWalker {
    const cfg: Config
    var sb: string
    var hist: set<Entity>

    constructor (cfg: Config)
      ensures this.cfg == cfg && sb == "" && hist == {}
    {
      this.cfg := cfg;
      sb := "";
      hist := {};
    }

    /** The loop of `ToObjectInitializer` that lists each restriction as a comment. */
    method AppendRestrictionComments(rs: seq<Restriction>)
      modifies this`sb
      ensures sb == old(sb) + RestrictionComments(rs)
    {
      for i := 0 to |rs|
        invariant sb == old(sb) + RestrictionComments(rs[..i])
      {
        var restriction := rs[i];
        ghost var before := sb;
        assert rs[..i + 1][..i] == rs[..i];
        sb := sb + NameLine(restriction);
        sb := sb + AllowedLine(restriction);
        AppendAssoc2(before, NameLine(restriction), AllowedLine(restriction));
        AppendAssoc2(old(sb), RestrictionComments(rs[..i]), RestrictionComment(restriction));
      }
      assert rs[..|rs|] == rs;
    }

    /** `WalkObject`: appends the literal of the object `r` refers to, at indentation `level`. */
    method WalkObject(r: Ref, level: nat)
      requires Closed(cfg.graph) && RefIn(cfg.graph, r)
      modifies this
      ensures sb == old(sb) + WalkRef(cfg, r, level, old(hist)).text
      ensures hist == WalkRef(cfg, r, level, old(hist)).hist
      decreases |Universe(cfg.graph) - hist|, 0
    {
      if r.Null? {
        sb := sb + NullText;
        return;
      }
      var node := cfg.graph[r.id];
      var entity := NodeEntity(node);
      var typeName := node.runtimeType.name;
      if EndsWith(typeName, ProxySuffix) {
        typeName := typeName[..|typeName| - |ProxySuffix|];
      }
      if node.Special? {
        sb := sb + SpecialText(typeName, node.enumValue, node.displayName);
        return;
      }
      if entity in hist {
        sb := sb + ReferenceText(typeName, entity.key);
        return;
      }

      var isRestricted := typeName in cfg.restrictions;
      var includeProperties: set<string> := if isRestricted then cfg.restrictions[typeName] else {};

      assert typeName == DisplayName(node.runtimeType);
      ghost var sb0 := sb;
      DiffDrops(Universe(cfg.graph), hist, entity);
      hist := hist + {entity};
      ghost var body := WalkProps(cfg, typeName, node.props, 0, level, false, hist).text;
      sb := sb + ObjectOpen(typeName);
      WalkProperties(typeName, isRestricted, includeProperties, node.props, level);
      sb := sb + Closing(level);
      AppendAssoc(sb0, ObjectOpen(typeName), body, Closing(level));
    }

    /**
      The property loop of `WalkObject`: skips what the projection drops and
      writes the separator and then each remaining property in turn.
     */
    method WalkProperties(typeName: string, isRestricted: bool, includeProperties: set<string>, properties: seq<Property>, level: nat)
      requires Closed(cfg.graph) && forall p :: p in properties ==> PropertyClosed(cfg.graph, p)
      requires isRestricted <==> typeName in cfg.restrictions
      requires isRestricted ==> includeProperties == cfg.restrictions[typeName]
      modifies this
      ensures sb == old(sb) + WalkProps(cfg, typeName, properties, 0, level, false, old(hist)).text
      ensures hist == WalkProps(cfg, typeName, properties, 0, level, false, old(hist)).hist
      decreases |Universe(cfg.graph) - hist|, 3
    {
      ghost var u := Universe(cfg.graph);
      ghost var h0 := hist;
      ghost var sb0 := sb;
      ghost var full := WalkProps(cfg, typeName, properties, 0, level, false, hist);
      var appendComma := false;
      for i := 0 to |properties|
        invariant h0 <= hist
        invariant var rest := WalkProps(cfg, typeName, properties, i, level, appendComma, hist);
          sb0 + full.text == sb + rest.text && full.hist == rest.hist
      {
        var property := properties[i];
        if isRestricted && property.name !in includeProperties {
          continue;
        }
        if property.name in cfg.exclude {
          continue;
        }
        ghost var first := WalkProperty(cfg, property, level, hist);
        ghost var rest := WalkProps(cfg, typeName, properties, i + 1, level, true, first.hist);
        ghost var sep := PropertySeparator(appendComma, level);
        ghost var sbIn := sb;

        if appendComma {
          sb := sb + "," + NewLine + Tabs(level);
          AppendAssoc(sbIn, ",", NewLine, Tabs(level));
        } else {
          sb := sb + NewLine + Tabs(level);
          AppendAssoc2(sbIn, NewLine, Tabs(level));
          appendComma := true;
        }

        DiffShrinks(u, h0, hist);
        WalkPropertyValue(property, level);
        assert sb == sbIn + sep + first.text;
        assert hist == first.hist;
        AppendAssoc(sbIn, sep, first.text, rest.text);
      }
    }

    /**
      The rest of the property loop's body once the separator is written:
      `HandleBaseTypes`, else a collection, an enum or a nested object.
     */
    method WalkPropertyValue(property: Property, level: nat)
      requires Closed(cfg.graph) && PropertyClosed(cfg.graph, property)
      modifies this
      ensures sb == old(sb) + WalkProperty(cfg, property, level, old(hist)).text
      ensures hist == WalkProperty(cfg, property, level, old(hist)).hist
      decreases |Universe(cfg.graph) - hist|, 2
    {
      ghost var sbIn := sb;
      ghost var h := hist;
      ghost var w := WalkProperty(cfg, property, level, h);
      var handled := HandleBaseTypes(property, level);
      if handled {
        assert w == Walked(Assign(property.name) + ScalarLiteral(property.value).value, h, []);
        return;
      }
      assert sb == sbIn + "";
      assert sbIn + "" == sbIn;
      var value := property.value;
      if value.List? {
        var listTypeName := ElementTypeName(value.listType);
        if value.elems.Some? && |value.elems.value| > 0 {
          ghost var inner := WalkElems(cfg, value.elems.value, 0, level + 1, false, h);
          assert w == Walked(ListOpen(property.name, listTypeName, level) + inner.text + Closing(level), inner.hist, inner.expanded);
          sb := sb + ListOpen(property.name, listTypeName, level);
          WalkList(value.elems.value, level + 1);
          sb := sb + Closing(level);
          AppendAssoc(sbIn, ListOpen(property.name, listTypeName, level), inner.text, Closing(level));
        } else {
          assert w == Walked(EmptyList(property.name, listTypeName), h, []);
          sb := sb + EmptyList(property.name, listTypeName);
        }
      } else if value.EnumName? {
        assert w == Walked(EnumAssign(property.name, value.name, level), h, []);
        sb := sb + EnumAssign(property.name, value.name, level);
      } else {
        ghost var child := WalkRef(cfg, value.child, level + 1, h);
        assert w == Walked(Assign(property.name) + child.text, child.hist, child.expanded);
        sb := sb + Assign(property.name);
        WalkObject(value.child, level + 1);
        AppendAssoc2(sbIn, Assign(property.name), child.text);
      }
    }

    /**
      `HandleBaseTypes`: appends `Name = literal` for a scalar property and
      reports whether it did. Each branch of the source formats the whole
      assignment in one `AppendFormat`; here each computes the right-hand side
      and the assignment is appended once.
     */
    method HandleBaseTypes(property: Property, level: nat) returns (handled: bool)
      modifies this`sb
      ensures handled <==> ScalarLiteral(property.value).Some?
      ensures sb == old(sb) + if handled then Assign(property.name) + ScalarLiteral(property.value).value else ""
    {
      var value := property.value;
      var rhs: string;
      if value.NullableNull? {
        rhs := "null";
      } else if value.Bytes? {
        var stringBuilder := "";
        var ba := value.bs;
        for k := 0 to |ba|
          invariant stringBuilder == BytesText(ba[..k])
          invariant sb == old(sb)
        {
          assert NatTexts(ba[..k + 1]) == NatTexts(ba[..k]) + [NatText(ba[k])];
          if |stringBuilder| > 0 {
            stringBuilder := stringBuilder + ",";
          }
          if k > 0 {
            JoinSnoc(",", NatTexts(ba[..k]), NatText(ba[k]));
          } else {
            assert NatTexts(ba[..1]) == [NatText(ba[0])];
          }
          stringBuilder := stringBuilder + NatText(ba[k]);
        }
        assert ba[..|ba|] == ba;
        rhs := "new byte[]{" + stringBuilder + "}";
      } else {
        match value {
          case Int(i) =>
            rhs := IntText(i);
          case Long(l) =>
            rhs := IntText(l) + "L";
          case Bool(b) =>
            var boolWork := false;
            match b {
              case Some(converted) => boolWork := converted;
              case None => boolWork := false;
            }
            rhs := if boolWork then "true" else "false";
          case Date(workDt) =>
            DateArgsFields(workDt);
            var args;
            if workDt.hour == 0 && workDt.minute == 0 && workDt.second == 0 {
              args := NatText(workDt.year) + "," + NatText(workDt.month) + "," + NatText(workDt.day);
            } else {
              args := NatText(workDt.year) + "," + NatText(workDt.month) + "," + NatText(workDt.day) + ","
                + NatText(workDt.hour) + "," + NatText(workDt.minute) + "," + NatText(workDt.second);
            }
            rhs := "new DateTime(" + args + ")";
          case Str(s) =>
            var workStr := EscapeBackslashes(s.GetOr(""));
            rhs := "\"" + workStr + "\"";
          case _ =>
            return false;
        }
      }
      assert rhs == ScalarLiteral(value).value;
      sb := sb + (Assign(property.name) + rhs);
      return true;
    }

    /** `WalkList`: appends the elements' literals, separated by a comma and a line break. */
    method WalkList(list: seq<Ref>, level: nat)
      requires Closed(cfg.graph) && forall r :: r in list ==> RefIn(cfg.graph, r)
      modifies this
      ensures sb == old(sb) + WalkElems(cfg, list, 0, level, false, old(hist)).text
      ensures hist == WalkElems(cfg, list, 0, level, false, old(hist)).hist
      decreases |Universe(cfg.graph) - hist|, 1
    {
      ghost var u := Universe(cfg.graph);
      ghost var h0 := hist;
      ghost var sb0 := sb;
      ghost var full := WalkElems(cfg, list, 0, level, false, hist);
      var appendComma := false;
      for i := 0 to |list|
        invariant h0 <= hist
        invariant var rest := WalkElems(cfg, list, i, level, appendComma, hist);
          sb0 + full.text == sb + rest.text && full.hist == rest.hist
      {
        ghost var first := WalkRef(cfg, list[i], level, hist);
        ghost var rest := WalkElems(cfg, list, i + 1, level, true, first.hist);
        ghost var sep := ElementSeparator(appendComma, level);
        assert WalkElems(cfg, list, i, level, appendComma, hist) == Walked(sep + first.text + rest.text, rest.hist, first.expanded + rest.expanded);
        ghost var sbIn := sb;
        assert !appendComma ==> sbIn + sep == sbIn;
        if appendComma {
          sb := sb + "," + NewLine + Tabs(level);
          AppendAssoc(sbIn, ",", NewLine, Tabs(level));
        }
        appendComma := true;
        DiffShrinks(u, h0, hist);
        assert RefIn(cfg.graph, list[i]);
        WalkObject(list[i], level);
        assert sb == sbIn + sep + first.text;
        assert hist == first.hist;
        AppendAssoc(sbIn, sep, first.text, rest.text);
      }
    }
  }
}
