/** The queries of the debug map, from an address in a method on (jit/jit-cache.c, `InitDebugIter`,
    `_jit_cache_get_native` and `_jit_cache_get_bytecode`). */
module DebugQueries {
  import opened RedBlack
  import opened LookupTrees
  import opened LookupQueries
  import opened DebugMap
  import opened DebugStream

  /** `InitDebugIter`: the debug blocks of the region that contains an address, none if there is no such region. */
  method FindDebug(cache: LookupTree, pc: int, ghost n: Node?) returns (data: seq<seq<Byte>>)
    requires cache.Valid() && Spaced(cache.Regions()) && n == Scan(cache.Regions(), pc)
    ensures data == if n == null then [] else n.debug
  {
    InNodes(cache);
    var node, _ := FindRegion(cache, pc);
    data := if node == cache.nil then [] else node.debug;
  }

  /** The pairs that the debug map of a region tells. */
  ghost function Told(n: Node?): seq<Pair>
    reads n
  {
    if n == null then [] else ReadAll(n.debug)
  }

  /** `_jit_cache_get_native`, for an address in the region `n`, or in none. */
  method GetNativeAt(cache: LookupTree, pc: int, offset: Ulong, exact: bool, ghost n: Node?) returns (r: Ulong)
    requires cache.Valid() && Spaced(cache.Regions()) && n == Scan(cache.Regions(), pc)
      && (n != null ==> AllReadable(n.debug))
    ensures r == NativeFor(Told(n), offset, exact, NO_OFFSET)
  {
    var data := FindDebug(cache, pc, n);
    hide LookupTree.Valid, Spaced;
    r := GetNative(data, offset, exact);
  }

  /** `_jit_cache_get_bytecode`. */
  method GetBytecodeAt(cache: LookupTree, pc: int, native: Ulong, exact: bool, ghost n: Node?) returns (r: Ulong)
    requires cache.Valid() && Spaced(cache.Regions()) && n == Scan(cache.Regions(), pc)
      && (n != null ==> AllReadable(n.debug))
    ensures r == BytecodeFor(Told(n), native, exact, NO_OFFSET)
  {
    var data := FindDebug(cache, pc, n);
    hide LookupTree.Valid, Spaced;
    r := GetBytecode(data, native, exact);
  }
}
