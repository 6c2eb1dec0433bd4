/**
 * Scalar types shared by the whole engine: the fixed-width integers of the
 * source, property keys, document identities, entity names and the shared,
 * immutable property value.
 */
module Property {

  /** The source's `u32`. */
  newtype u32 = x: int | 0 <= x < 0x1_0000_0000

  /** The source's `i32`. */
  newtype i32 = x: int | -0x8000_0000 <= x < 0x8000_0000

  const U32_MAX: u32 := 0xFFFF_FFFF

  /** Property key. */
  type KT = u32

  /** Identity of a document (and of its history). */
  type DocId = u32

  /** The key whose value names a document to insert as the entity's children. */
  const INS_DOC: KT := 33

  /** Minimal (and initial) entity name segment. */
  const START_NAME: u32 := 0

  /**
   * Name of an entity: one segment per nesting level. Names handed to the
   * transaction builder may have any length, including zero.
   */
  type Name = seq<u32>

  /** A name with a trailing segment: every stored or allocated name (`name.last().unwrap()` never fails). */
  type EntityName = n: Name | |n| > 0 witness [0]

  /** The trailing segment of a name. */
  function Last(name: EntityName): u32
  {
    name[|name| - 1]
  }

  /**
   * The payload of a property. The source stores `Box<dyn Any>` and reads it
   * back with a checked downcast; the model closes the set of payload types.
   */
  datatype Payload = I32(i: i32) | U32(u: u32) | Str(s: string)

  /** The type a caller asks for when it reads a property (`get_property::<T>`). */
  datatype Kind = I32Kind | U32Kind | StrKind

  function KindOf(v: Payload): Kind
  {
    match v
    case I32(_) => I32Kind
    case U32(_) => U32Kind
    case Str(_) => StrKind
  }

  /**
   * A key and its payload behind a shared pointer. The object is never
   * changed after construction, so comparing two references is comparing
   * the identity of the shared instance, as `Rc::ptr_eq` would.
   */
  class PropertyValue {
    const key: KT
    const value: Payload

    constructor (key: KT, value: Payload)
      ensures this.key == key && this.value == value
    {
      this.key := key;
      this.value := value;
    }
  }
}
