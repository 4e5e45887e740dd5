/** Per-class id counters (idgen/idgen.go). */
module IdGen {
  import opened Bytes

  /** Go's map lookup: an absent counter reads as zero. */
  function Count(counters: map<bytes, nat>, scope: bytes): nat {
    if scope in counters then counters[scope] else 0
  }

  const MAX_ID := 0x7FFF_FFFF_FFFF_FFFF

  class Generator {
    var counters: map<bytes, nat>

    constructor ()
      ensures counters == map[]
    {
      counters := map[];
    }

    method Next(scope: bytes) returns (id: nat)
      requires Count(counters, scope) < MAX_ID
      modifies this
      ensures id == Count(old(counters), scope) + 1 && counters == old(counters)[scope := id]
    {
      counters := counters[scope := Count(counters, scope) + 1];
      id := counters[scope];
    }

    method Observe(scope: bytes, id: int)
      modifies this
      ensures Count(counters, scope) == if id > Count(old(counters), scope) then id else Count(old(counters), scope)
      ensures forall s :: s != scope ==> Count(counters, s) == Count(old(counters), s)
    {
      if id > Count(counters, scope) {
        counters := counters[scope := id];
      }
    }

    method Drop(scope: bytes)
      modifies this
      ensures counters == old(counters) - {scope}
    {
      counters := counters - {scope};
    }
  }

  /** After a drop a class starts again at 1, and every other class goes on where it was. */
  method DropThenNext(gen: Generator, scope: bytes, other: bytes) returns (first: nat, next: nat)
    requires other != scope && Count(gen.counters, other) < MAX_ID
    modifies gen
    ensures first == 1 && next == Count(old(gen.counters), other) + 1
  {
    gen.Drop(scope);
    first := gen.Next(scope);
    next := gen.Next(other);
  }
}
