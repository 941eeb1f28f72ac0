/** The in-memory store (pkg/store/memstore): objects by hash and refs that
    move only by compare-and-swap. */
module MemStore {
  import opened Objects

  type Objs = map<Hash, Object>

  /** When a compare-and-swap may proceed; a zero `expected` means "create". */
  predicate CasMatches(refs: map<string, Hash>, name: string, expected: Hash) {
    (name !in refs && expected.Zero?) || (name in refs && refs[name] == expected)
  }

  function GetRefOf(refs: map<string, Hash>, name: string): Hash {
    if name in refs then refs[name] else Zero
  }

  class Store {
    var objects: map<Hash, Object>
    var refs: map<string, Hash>

    constructor ()
      ensures objects == map[] && refs == map[]
    {
      objects, refs := map[], map[];
    }

    /** Stores `o` under `h` without checking that `h` names it. */
    method PutObject(h: Hash, o: Object)
      modifies this`objects
      ensures objects == old(objects)[h := o]
    {
      objects := objects[h := o];
    }

    method GetObject(h: Hash) returns (r: Result<Object>)
      ensures r == if h in objects then Ok(objects[h]) else Err(NotFound)
    {
      if h !in objects { return Err(NotFound); }
      return Ok(objects[h]);
    }

    method CASRef(name: string, expected: Hash, next: Hash) returns (r: Result<()>)
      modifies this`refs
      ensures r.Ok? <==> next.H? && expected == if name in old(refs) then old(refs)[name] else Zero
      ensures refs == if r.Ok? then old(refs)[name := next] else old(refs)
      ensures next.H? && r.Err? ==> r.error == CasConflict
    {
      if next.Zero? { return Err(InvalidObject); }
      if name !in refs && expected.Zero? {
      } else if name in refs && refs[name] == expected {
      } else {
        return Err(CasConflict);
      }
      refs := refs[name := next];
      return Ok(());
    }

    method DeleteRef(name: string, expected: Hash) returns (r: Result<()>)
      modifies this`refs
      ensures r.Ok? <==> name in old(refs) && old(refs)[name] == expected
      ensures refs == if r.Ok? then old(refs) - {name} else old(refs)
    {
      if name !in refs { return Err(NotFound); }
      if refs[name] != expected { return Err(CasConflict); }
      refs := refs - {name};
      return Ok(());
    }
  }

  // ---------- genuine objects ----------

  /** `h` is stored under the object it names. */
  predicate Holds(objs: Objs, h: Hash) {
    h.H? && h in objs && objs[h] == h.obj
  }

  /** Growth that never loses a genuine object. */
  ghost predicate Keeps(a: Objs, b: Objs) {
    forall h :: Holds(a, h) ==> Holds(b, h)
  }

  /** Every object is stored under its own hash. */
  ghost predicate ContentAddressed(objs: Objs) {
    forall h :: h in objs ==> h.H? && objs[h] == h.obj
  }

  /** Growth by genuine objects only. */
  ghost predicate Grows(a: Objs, b: Objs) {
    Keeps(a, b) && forall h :: h in b ==> (h in a && b[h] == a[h]) || Holds(b, h)
  }
}
