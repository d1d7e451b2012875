/**
  The whole output of `ToObjectInitializer`: comment lines that record the
  projection settings, then `var x = `, the literal of the root object and `;`.
  Building the restriction dictionary fails on a repeated entity name, and then
  nothing is written.
 */
module Initializer {
  import opened Wrappers
  import opened Seqs
  import opened Text
  import opened Identity
  import opened ObjectGraph
  import opened Restrictions
  import opened WalkSpec
  import opened WalkFacts

  const ExcludeHeading: string := "// Globally Excluded Properties:"
  const RestrictedHeading: string := "// Restricted Entities:"
  const AllowedHeading: string := "//  Allowed Properties: "
  const Declaration: string := "var x = "

  /** The `HashSet` built from the comma-separated exclude list. */
  function ExcludeSet(globalExcludeProperties: string): set<string> {
    set x | x in Split(globalExcludeProperties, ',')
  }

  /** The two comment lines that record the exclude list, written when splitting it gives any part. */
  function ExcludeComment(globalExcludeProperties: string): string {
    if |Split(globalExcludeProperties, ',')| > 0 then
      ExcludeHeading + NewLine + "//  " + globalExcludeProperties + NewLine
    else ""
  }

  /** The comment line naming a restricted entity. */
  function NameLine(r: Restriction): string {
    "// " + r.entityName + NewLine
  }

  /** The comment line listing a restriction's include set, comma-separated, each name once. */
  function AllowedLine(r: Restriction): string {
    AllowedHeading + Join(",", Dedup(r.includeProperties)) + NewLine
  }

  /** The two comment lines for one restriction. */
  function RestrictionComment(r: Restriction): string {
    NameLine(r) + AllowedLine(r)
  }

  /** The comment lines for the restrictions, in the order they were given. */
  function RestrictionComments(rs: seq<Restriction>): string {
    if rs == [] then ""
    else RestrictionComments(rs[..|rs| - 1]) + RestrictionComment(rs[|rs| - 1])
  }

  /** The restriction comments, written when the dictionary holds any entry. */
  function RestrictedComment(rs: seq<Restriction>, restrictions: map<string, set<string>>): string {
    if |restrictions| > 0 then RestrictedHeading + NewLine + RestrictionComments(rs) else ""
  }

  /** `ToObjectInitializer(root, globalExcludeProperties, entityRestrictions)`. */
  function Serialize(g: Graph, root: Ref, globalExcludeProperties: string, rs: seq<Restriction>): Result<string, ConfigError>
    requires Closed(g) && RefIn(g, root)
  {
    match BuildRestrictions(rs)
    case Err(e) => Err(e)
    case Ok(restrictions) =>
      var c := Config(g, restrictions, ExcludeSet(globalExcludeProperties));
      Ok(ExcludeComment(globalExcludeProperties) + RestrictedComment(rs, restrictions)
         + Declaration + WalkRef(c, root, 0, {}).text + ";")
  }

  /**
    Serialising fails exactly when two restrictions name the same entity, and
    the error names it. Otherwise the exclude comment always comes first (even
    an empty exclude list splits into one part), the restriction comments follow
    exactly when restrictions were given, then the declaration and the walk of
    the root from an empty history.
   */
  lemma SerializeSpec(g: Graph, root: Ref, globalExcludeProperties: string, rs: seq<Restriction>)
    requires Closed(g) && RefIn(g, root)
    ensures Serialize(g, root, globalExcludeProperties, rs).Ok? <==> DistinctNames(rs)
    ensures Serialize(g, root, globalExcludeProperties, rs).Err? ==>
      exists i, j :: 0 <= j < i < |rs| && rs[i].entityName == rs[j].entityName == Serialize(g, root, globalExcludeProperties, rs).error.name
    ensures Serialize(g, root, globalExcludeProperties, rs).Ok? ==>
      var c := Config(g, BuildRestrictions(rs).value, ExcludeSet(globalExcludeProperties));
      Serialize(g, root, globalExcludeProperties, rs).value
        == ExcludeHeading + NewLine + "//  " + globalExcludeProperties + NewLine
           + (if |rs| > 0 then RestrictedHeading + NewLine + RestrictionComments(rs) else "")
           + Declaration + WalkRef(c, root, 0, {}).text + ";"
  {
    BuildRestrictionsSpec(rs);
    if DistinctNames(rs) {
      var m := BuildRestrictions(rs).value;
      if |rs| > 0 {
        assert rs[0].entityName in m;
        assert |m| > 0;
      } else {
        assert m.Keys == {};
        assert |m| == 0;
      }
    }
  }

  /**
    One call expands each object identity at most once, whatever cycles the
    graph has, and so writes at most as many `new T {` expansions as the graph
    has identities.
   */
  lemma SerializeExpandsEachOnce(g: Graph, root: Ref, globalExcludeProperties: string, rs: seq<Restriction>)
    requires Closed(g) && RefIn(g, root) && BuildRestrictions(rs).Ok?
    ensures var c := Config(g, BuildRestrictions(rs).value, ExcludeSet(globalExcludeProperties));
      && NoDup(WalkRef(c, root, 0, {}).expanded)
      && |WalkRef(c, root, 0, {}).expanded| <= |Universe(g)|
  {
    var c := Config(g, BuildRestrictions(rs).value, ExcludeSet(globalExcludeProperties));
    ExpansionBound(c, root, 0, {});
    assert Universe(g) - {} == Universe(g);
  }
}
