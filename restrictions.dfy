/**
  Projection: the per-type include sets (`Restriction`, gathered into a
  dictionary keyed by entity name) and the global exclude set decide which
  properties of an object are written. There are only include-style
  restrictions; a restricted type writes the listed properties and no others.
 */
module Restrictions {
  import opened Wrappers
  import opened Seqs
  import opened ObjectGraph

  /** `Restriction(entityName, params includeProperties)`. */
  datatype Restriction = Restriction(entityName: string, includeProperties: seq<string>)

  /** `ToDictionary` rejects a second restriction for an entity name already added. */
  datatype ConfigError = DuplicateEntityName(name: string)

  /** The `HashSet<string>` the constructor builds from the include list. */
  function IncludeSet(r: Restriction): set<string> {
    set x | x in r.includeProperties
  }

  predicate DistinctNames(rs: seq<Restriction>) {
    forall i, j :: 0 <= i < j < |rs| ==> rs[i].entityName != rs[j].entityName
  }

  /** The entity names from index `i` on differ from each other and from every key of `acc`. */
  ghost predicate FreshFrom(acc: map<string, set<string>>, rs: seq<Restriction>, i: nat) {
    && (forall a, b :: i <= a < b < |rs| ==> rs[a].entityName != rs[b].entityName)
    && (forall a :: i <= a < |rs| ==> rs[a].entityName !in acc)
  }

  /** Adds the restrictions from index `i` on to `acc` in order, failing at the first name already present. */
  function AddAll(acc: map<string, set<string>>, rs: seq<Restriction>, i: nat): Result<map<string, set<string>>, ConfigError>
    requires i <= |rs|
    decreases |rs| - i
  {
    if i == |rs| then Ok(acc)
    else if rs[i].entityName in acc then Err(DuplicateEntityName(rs[i].entityName))
    else AddAll(acc[rs[i].entityName := IncludeSet(rs[i])], rs, i + 1)
  }

  /** `entityRestrictions.ToDictionary(k => k.EntityName, v => v.IncludeProperties)`. */
  function BuildRestrictions(rs: seq<Restriction>): Result<map<string, set<string>>, ConfigError> {
    AddAll(map[], rs, 0)
  }

  lemma {:induction false} AddAllSpec(acc: map<string, set<string>>, rs: seq<Restriction>, i: nat)
    requires i <= |rs|
    ensures AddAll(acc, rs, i).Ok? <==> FreshFrom(acc, rs, i)
    ensures AddAll(acc, rs, i).Ok? ==>
      var m := AddAll(acc, rs, i).value;
      && m.Keys == acc.Keys + (set a | i <= a < |rs| :: rs[a].entityName)
      && (forall a :: i <= a < |rs| ==> m[rs[a].entityName] == IncludeSet(rs[a]))
      && (forall k :: k in acc ==> m[k] == acc[k])
    ensures AddAll(acc, rs, i).Err? ==>
      exists a :: i <= a < |rs| && AddAll(acc, rs, i).error.name == rs[a].entityName &&
        (rs[a].entityName in acc || exists b :: i <= b < a && rs[b].entityName == rs[a].entityName)
    decreases |rs| - i
  {
    if i < |rs| {
      var n := rs[i].entityName;
      if n in acc {
        assert !FreshFrom(acc, rs, i);
      } else {
        var acc' := acc[n := IncludeSet(rs[i])];
        AddAllSpec(acc', rs, i + 1);
        assert FreshFrom(acc, rs, i) <==> FreshFrom(acc', rs, i + 1);
        if AddAll(acc', rs, i + 1).Ok? {
          assert (set a | i <= a < |rs| :: rs[a].entityName) == {n} + (set a | i + 1 <= a < |rs| :: rs[a].entityName);
        }
      }
    }
  }

  /**
    Building the dictionary succeeds exactly when the entity names are distinct;
    it then maps each name to its include set, and a failure names a duplicated entity.
   */
  lemma BuildRestrictionsSpec(rs: seq<Restriction>)
    ensures BuildRestrictions(rs).Ok? <==> DistinctNames(rs)
    ensures BuildRestrictions(rs).Ok? ==>
      var m := BuildRestrictions(rs).value;
      && m.Keys == (set i | 0 <= i < |rs| :: rs[i].entityName)
      && (forall i :: 0 <= i < |rs| ==> m[rs[i].entityName] == IncludeSet(rs[i]))
    ensures BuildRestrictions(rs).Err? ==>
      exists i, j :: 0 <= j < i < |rs| && rs[i].entityName == rs[j].entityName == BuildRestrictions(rs).error.name
  {
    AddAllSpec(map[], rs, 0);
  }

  /**
    The two `continue` tests of the property loop: a restricted type writes only
    its included properties, and a globally excluded property is never written.
   */
  predicate Emits(restrictions: map<string, set<string>>, exclude: set<string>, typeName: string, propName: string) {
    if typeName in restrictions && propName !in restrictions[typeName] then false
    else propName !in exclude
  }

  /**
    A property is written exactly when its type is unrestricted or includes it,
    and it is not globally excluded: the exclude set wins over an include set,
    and an empty include set writes nothing.
   */
  lemma EmitsSpec(restrictions: map<string, set<string>>, exclude: set<string>, typeName: string, propName: string)
    ensures Emits(restrictions, exclude, typeName, propName) <==>
      (typeName !in restrictions || propName in restrictions[typeName]) && propName !in exclude
    ensures propName in exclude ==> !Emits(restrictions, exclude, typeName, propName)
    ensures typeName in restrictions && restrictions[typeName] == {} ==> !Emits(restrictions, exclude, typeName, propName)
  {
  }

  /** The properties the loop writes, in the order they come. */
  function Selected(restrictions: map<string, set<string>>, exclude: set<string>, typeName: string, ps: seq<Property>): (r: seq<Property>)
    ensures forall p :: p in r <==> p in ps && Emits(restrictions, exclude, typeName, p.name)
    ensures |r| <= |ps|
  {
    if ps == [] then []
    else
      (if Emits(restrictions, exclude, typeName, ps[0].name) then [ps[0]] else [])
      + Selected(restrictions, exclude, typeName, ps[1..])
  }

  /** Filtering keeps the order: it distributes over concatenation. */
  lemma {:induction false} SelectedAppend(restrictions: map<string, set<string>>, exclude: set<string>, typeName: string, a: seq<Property>, b: seq<Property>)
    ensures Selected(restrictions, exclude, typeName, a + b)
         == Selected(restrictions, exclude, typeName, a) + Selected(restrictions, exclude, typeName, b)
  {
    if a != [] {
      var head := if Emits(restrictions, exclude, typeName, a[0].name) then [a[0]] else [];
      assert (a + b)[0] == a[0];
      assert (a + b)[1..] == a[1..] + b;
      SelectedAppend(restrictions, exclude, typeName, a[1..], b);
      AppendAssoc2(head, Selected(restrictions, exclude, typeName, a[1..]), Selected(restrictions, exclude, typeName, b));
    } else {
      assert a + b == b;
    }
  }
}
