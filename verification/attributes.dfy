/** A character's persistent attributes (`character.db.*`) as a map from
    attribute name to value. Reading a name that is not stored yields Python's
    `None`, as the attribute handler does. */
module Attributes {

  /** The attribute values this game stores. */
  datatype AttrVal = NoneV | IntV(i: int) | StrV(s: string) {
    /** The integer stored, or `default` for any other value. */
    function GetIntOr(default: int): int {
      if IntV? then i else default
    }
  }

  type Attrs = map<string, AttrVal>

  /** `obj.db.<name>`: the stored value, or `None` when nothing is stored. */
  function Get(a: Attrs, name: string): (v: AttrVal)
    ensures name !in a ==> v == NoneV
    ensures name in a ==> v == a[name]
  {
    if name in a then a[name] else NoneV
  }

  /** Python truthiness of a stored value: `None`, `0` and `""` are false. */
  predicate Truthy(v: AttrVal) {
    match v
    case NoneV => false
    case IntV(i) => i != 0
    case StrV(s) => s != []
  }

  /** `a` and `b` agree on every attribute outside `names`, and neither stores
      an attribute outside `names` that the other lacks. */
  predicate SameOutside(a: Attrs, b: Attrs, names: set<string>) {
    && (forall k :: k in a && k !in names ==> k in b && b[k] == a[k])
    && (forall k :: k in b && k !in names ==> k in a)
  }
}
