/** Elements, the operations on collections of them, and what each operation means. */
module Elements {
  datatype Option<+T> = None | Some(value: T)
  {
    function GetOr(other: T): T
    {
      if None? then other else value
    }
  }

  const SIZE_MAX: nat := 0xFFFF_FFFF_FFFF_FFFF

  /** A `usize`, the range of std::hash. */
  type Usize = x: nat | x <= SIZE_MAX

  /** What `==` compares: two elements are equal when both parts agree, so equal elements have equal
      hashes, while elements with the same hash and different tags are a collision. */
  datatype Id = Id(hash: Usize, tag: int)

  /** An element: its identity and the part that `==` ignores (a map's value; nothing for a plain set). */
  datatype Elem = Elem(id: Id, payload: int)

  /** `==` of the optional values of two nodes; head and tail have none. */
  predicate SameValue(x: Option<Elem>, y: Option<Elem>)
  {
    if x.Some? && y.Some? then x.value.id == y.value.id else x == y
  }

  datatype Op = Contains(id: Id) | GetEqual(id: Id) | Add(e: Elem) | Put(e: Elem) | Remove(id: Id)
  {
    function Key(): Id
    {
      match this
      case Contains(id) => id
      case GetEqual(id) => id
      case Add(e) => e.id
      case Put(e) => e.id
      case Remove(id) => id
    }
  }

  datatype Result = Result(ok: bool, found: Option<Elem>)

  type Contents = map<Id, int>

  /** The meaning of each operation. `Add` keeps an equal element that is already there, `Put` replaces it. */
  function Apply(m: Contents, op: Op): (r: (Contents, Result))
  {
    match op
    case Contains(id) => (m, Result(id in m, None))
    case GetEqual(id) => (m, if id in m then Result(true, Some(Elem(id, m[id]))) else Result(false, None))
    case Add(e) => if e.id in m then (m, Result(false, None)) else (m[e.id := e.payload], Result(true, None))
    case Put(e) => (m[e.id := e.payload], Result(true, None))
    case Remove(id) => if id in m then (m - {id}, Result(true, None)) else (m, Result(false, None))
  }

  /** What a caller sees: an operation being called, and its answer. */
  datatype Action = Call(t: nat, op: Op) | Reply(t: nat, res: Result)
}
