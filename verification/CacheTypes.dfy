/** What both response caches are about. */
module CacheTypes {

  /** Any Python object that is passed in as an input or comes out as a result. */
  datatype Obj = Obj(ident: int)

  datatype CacheStats = CacheStats(hits: nat, misses: nat, evictions: nat) {
    function Total(): nat {
      hits + misses
    }
  }
}
