/**
  Entity identity: the `Entity` class and `EntityEqualityComparer`. An entity
  is the runtime type of an object together with the value of its `Key`
  property, 0 when the type has no such property. The type name shown in the
  output and used for restriction lookup has an NHibernate `Proxy` suffix
  removed; identity keeps the runtime type as it is.
 */
module Identity {
  import opened Wrappers

  /** The name of the key property (`KeyProperty`). */
  const KeyProperty: string := "Key"

  /**
    A runtime type. `qualifiedName` is its assembly-qualified name, which no
    other loaded type shares, so it stands for the `Type` object itself: two
    values are equal exactly when they denote one runtime type. `name` is
    `Type.Name`, which distinct types can share (every closed instantiation of
    a generic type, such as ``HashSet`1``, and nested types of one name).
   */
  datatype TypeId = TypeId(qualifiedName: string, name: string)

  /** `Entity`: a runtime type and a key. */
  datatype Entity = Entity(runtimeType: TypeId, key: int)

  /**
    The `Entity(object)` constructor: `keyProperty` is the value of the object's
    `Key` property, `None` when its type has no such property.
   */
  function EntityOf(t: TypeId, keyProperty: Option<int>): (e: Entity)
    ensures e.runtimeType == t
    ensures e.key == keyProperty.GetOr(0)
  {
    Entity(t, match keyProperty case Some(k) => k case None => 0)
  }

  /** `EntityEqualityComparer.Equals`. */
  function EntityEquals(lhs: Entity, rhs: Entity): bool {
    if lhs.runtimeType != rhs.runtimeType then false
    else lhs.key == rhs.key
  }

  /**
    The comparer identifies entities exactly when they are the same value, so a
    `HashSet<Entity>` probed through it behaves as a set of `Entity` values.
   */
  lemma EntityEqualsIsEquality(lhs: Entity, rhs: Entity)
    ensures EntityEquals(lhs, rhs) <==> lhs == rhs
    ensures EntityEquals(lhs, rhs) <==> lhs.runtimeType == rhs.runtimeType && lhs.key == rhs.key
  {
  }

  /** Two objects of one runtime type without a `Key` property are the same entity. */
  lemma KeylessObjectsCollide(t: TypeId)
    ensures EntityEquals(EntityOf(t, None), EntityOf(t, None))
    ensures EntityOf(t, None) == EntityOf(t, Some(0))
  {
  }

  /**
    `GetHashCode`: the type's hash plus the key's hash, in wrapping signed
    32-bit arithmetic. `typeHash` and `keyHash` stand for the runtime's own hash
    functions. The serialiser never calls it: the history is probed with LINQ's
    `Contains(entity, comparer)`, which calls only `Equals`.
   */
  function EntityHash(typeHash: TypeId -> int, keyHash: int -> int, e: Entity): (h: int)
    ensures -0x8000_0000 <= h < 0x8000_0000
    ensures h % 0x1_0000_0000 == (typeHash(e.runtimeType) + keyHash(e.key)) % 0x1_0000_0000
  {
    var low := (typeHash(e.runtimeType) + keyHash(e.key)) % 0x1_0000_0000;
    if low < 0x8000_0000 then low else low - 0x1_0000_0000
  }

  /** A negative sum stays negative: the hash is signed, as an `int` is. */
  lemma EntityHashIsSigned(t: TypeId, key: int)
    ensures EntityHash(_ => -1, _ => 0, Entity(t, key)) == -1
  {
  }

  /** Equal entities hash alike, whatever hash functions the runtime uses. */
  lemma EqualEntitiesHashAlike(typeHash: TypeId -> int, keyHash: int -> int, lhs: Entity, rhs: Entity)
    requires EntityEquals(lhs, rhs)
    ensures EntityHash(typeHash, keyHash, lhs) == EntityHash(typeHash, keyHash, rhs)
  {
  }

  const ProxySuffix: string := "Proxy"

  predicate EndsWith(s: string, suffix: string) {
    |suffix| <= |s| && s[|s| - |suffix|..] == suffix
  }

  /** The type name as written in the output: one trailing `Proxy` removed, if present. */
  function StripProxy(name: string): (r: string)
    ensures EndsWith(name, ProxySuffix) ==> r + ProxySuffix == name
    ensures !EndsWith(name, ProxySuffix) ==> r == name
  {
    if EndsWith(name, ProxySuffix) then name[..|name| - |ProxySuffix|] else name
  }

  /**
    Exactly one suffix is removed: a proxy of `n` shows as `n`, even when `n`
    itself ends in `Proxy`, and a name without the suffix is left alone.
   */
  lemma StripProxyOnce(n: string)
    ensures StripProxy(n + ProxySuffix) == n
    ensures StripProxy(n + ProxySuffix + ProxySuffix) == n + ProxySuffix
    ensures !EndsWith(n, ProxySuffix) ==> StripProxy(n) == n
  {
    assert (n + ProxySuffix)[|n|..] == ProxySuffix;
    assert (n + ProxySuffix + ProxySuffix)[|n| + 5..] == ProxySuffix;
    assert (n + ProxySuffix + ProxySuffix)[..|n| + 5] == n + ProxySuffix;
  }

  /** The name the output and the restriction lookup use. */
  function DisplayName(t: TypeId): string {
    StripProxy(t.name)
  }

  /**
    A proxy type and the type it stands for share a display name but remain
    distinct entities, so the proxy and the real object of one key are each expanded.
   */
  lemma ProxyKeepsIdentity(proxyQualified: string, qualified: string, n: string, key: Option<int>)
    ensures !EndsWith(n, ProxySuffix) ==>
      DisplayName(TypeId(proxyQualified, n + ProxySuffix)) == DisplayName(TypeId(qualified, n))
    ensures !EntityEquals(EntityOf(TypeId(proxyQualified, n + ProxySuffix), key), EntityOf(TypeId(qualified, n), key))
  {
    StripProxyOnce(n);
    assert |n + ProxySuffix| != |n|;
  }

  /**
    Types that share a short name, such as `HashSet<Order>` and
    `HashSet<Address>`, are different entities even with equal keys: the
    comparer compares `Type` objects, not names. They are written under one name.
   */
  lemma SharedNameKeepsIdentity(q1: string, q2: string, n: string, key: Option<int>)
    requires q1 != q2
    ensures DisplayName(TypeId(q1, n)) == DisplayName(TypeId(q2, n))
    ensures !EntityEquals(EntityOf(TypeId(q1, n), key), EntityOf(TypeId(q2, n), key))
  {
  }
}
