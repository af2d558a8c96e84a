/**
 * Values that the weapon and player code only carry from one record to
 * another and never compute with. Their representation (32-bit floats,
 * engine vectors, entity handles, the projectile-type enumeration) plays no
 * part in the behaviour modelled here, so they are abstract types.
 */
module Values {
  /** An `f32` that is only copied (damage, speed, angles, despawn times). */
  type F32(==)
  /** A two-component float vector (`Vec2`), only copied. */
  type Vec2(==)
  /** Where projectiles spawn: relative to the source or global (`SpawnPosition`). */
  type SpawnPosition(==)
  /** The kind of projectile a weapon or player fires (`ProjectileType`). */
  type ProjectileType(==)
  /** An engine entity handle (`Entity`). */
  type Entity(==)

  datatype Option<T> = None | Some(value: T)
}
