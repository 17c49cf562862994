/** Definitions shared by all modules. */
module Prelude {

  datatype Option<T> = None | Some(value: T)

  lemma Assoc<T>(a: seq<T>, b: seq<T>, c: seq<T>)
    ensures a + b + c == a + (b + c)
  {
  }

  /** All parts one after the other. */
  function Flatten<T>(parts: seq<seq<T>>): seq<T> {
    if parts == [] then [] else parts[0] + Flatten(parts[1..])
  }

  lemma {:induction false} FlattenMore<T>(parts: seq<seq<T>>, part: seq<T>)
    ensures Flatten(parts + [part]) == Flatten(parts) + part
  {
    if parts == [] {
      assert (parts + [part])[1..] == [];
    } else {
      assert (parts + [part])[1..] == parts[1..] + [part];
      FlattenMore(parts[1..], part);
      Assoc(parts[0], Flatten(parts[1..]), part);
    }
  }
}
