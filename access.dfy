/** `MapAsPropertyAccessor`: the plug-in through which the expression
    evaluator reads a named property, here a key of a map body. It only reads. */
module PropertyAccess {
  import opened Values

  /** `canRead`: the target is a map that has `name` as a key (a key mapped to
      `Null` is readable). */
  predicate CanRead(target: Value, name: string)
  {
    target.Map? && name in target.fields
  }

  /** `read`: the value the map holds under `name`, as it is. */
  function Read(target: Value, name: string): Value
    requires CanRead(target, name)
  {
    target.fields[name]
  }

  /** `canWrite`: never. */
  predicate CanWrite(target: Value, name: string)
  {
    false
  }

  /** `write`: does nothing, so the target comes back unchanged. */
  function Write(target: Value, name: string, newValue: Value): Value
  {
    target
  }

  /** The accessor reads map keys and nothing else, returns the stored value
      without coercion, and never writes. */
  lemma AccessorContract(target: Value, name: string, newValue: Value)
    ensures CanRead(target, name) <==> exists m :: target == Map(m) && name in m
    ensures CanRead(target, name) ==> Read(target, name) in target.fields.Values
    ensures CanRead(target, name) ==> Map(target.fields[name := Read(target, name)]) == target
    ensures !CanWrite(target, name) && Write(target, name, newValue) == target
  {
    if CanRead(target, name) {
      assert target == Map(target.fields);
      assert target.fields[name := Read(target, name)] == target.fields;
    }
  }
}
