/** All metadata of a function, from the first `jit_meta_set` to the destruction of the function (jit/jit-meta.c,
    `_jit_block_free` in jit/jit-block.c, `_jit_function_free_builder` and `_jit_function_destroy` in
    jit/jit-function.c). */
module MetadataRuns {
  import opened Wrappers
  import opened Metadata

  /** Where the head of a list is: in a block, in the builder, or in the function itself.  Items of the first two kinds
      come from the builder's pool. */
  datatype Home = InBlock | InBuilder | InFunction

  /** `jit_meta_set`, `jit_meta_free` and `jit_meta_destroy` on the list with a number, and the end of the builder, as
      after each successful compilation.  A list that is gone starts over as a new one.  `granted` says whether the
      system has memory. */
  datatype Op =
    | Set(list: nat, code: int, data: int, freeData: int, granted: bool)
    | Free(list: nat, code: int)
    | Destroy(list: nat)
    | EndBuilder

  /** The operation is on one of `n` lists. */
  predicate Names(op: Op, n: nat) { !op.EndBuilder? ==> op.list < n }

  // ---- Metadata as maps ----

  datatype Value = Value(data: int, freeData: int)

  type Maps = seq<map<int, Value>>

  /** What is left of lists when the builder is gone. */
  function Outside<T>(s: seq<T>, nothing: T, homes: seq<Home>): (r: seq<T>)
    requires |s| == |homes|
    ensures |r| == |s| && forall k :: 0 <= k < |r| ==> r[k] == if homes[k] == InFunction then s[k] else nothing
  {
    seq(|s|, k requires 0 <= k < |s| => if homes[k] == InFunction then s[k] else nothing)
  }

  /** A new value is attached unless there is no memory or the data is what it was. */
  predicate Attaches(op: Op, ok: bool, maps: Maps)
    requires Names(op, |maps|)
  {
    op.Set? && ok && !(op.code in maps[op.list] && maps[op.list][op.code].data == op.data)
  }

  function After(op: Op, ok: bool, maps: Maps, homes: seq<Home>): (r: Maps)
    requires Names(op, |maps|) && |maps| == |homes|
    ensures |r| == |maps|
  {
    match op
    case Set(k, code, data, freeData, _) =>
      if Attaches(op, ok, maps) then maps[k := maps[k][code := Value(data, freeData)]] else maps
    case Free(k, code) => maps[k := maps[k] - {code}]
    case Destroy(k) => maps[k := map[]]
    case EndBuilder => Outside(maps, map[], homes)
  }

  function AfterAll(ops: seq<Op>, oks: seq<bool>, maps: Maps, homes: seq<Home>): (r: Maps)
    requires |ops| == |oks| && |maps| == |homes| && forall op :: op in ops ==> Names(op, |maps|)
    ensures |r| == |maps|
  {
    if ops == [] then maps
    else var last := |ops| - 1; After(ops[last], oks[last], AfterAll(ops[..last], oks[..last], maps, homes), homes)
  }

  function Gives(op: Op, ok: bool, maps: Maps): multiset<Call>
    requires Names(op, |maps|)
  {
    if Attaches(op, ok, maps) && op.freeData != 0 then multiset{Call(op.freeData, op.data)} else multiset{}
  }

  /** The destructors that a run attaches, each with the data it was attached to. */
  function Attached(ops: seq<Op>, oks: seq<bool>, maps: Maps, homes: seq<Home>): multiset<Call>
    requires |ops| == |oks| && |maps| == |homes| && forall op :: op in ops ==> Names(op, |maps|)
  {
    if ops == [] then multiset{}
    else
      var last := |ops| - 1;
      var before := AfterAll(ops[..last], oks[..last], maps, homes);
      Attached(ops[..last], oks[..last], maps, homes) + Gives(ops[last], oks[last], before)
  }

  /** What an operation reports.  It succeeds but for a new type on a list in the function without memory, and perhaps
      for one on another list, when the pool has no slot left either. */
  predicate Reports(op: Op, ok: bool, maps: Maps, homes: seq<Home>)
    requires Names(op, |maps|) && |maps| == |homes|
  {
    if op.Set? && !op.granted && op.code !in maps[op.list] then homes[op.list] == InFunction ==> !ok else ok
  }

  predicate ReportsAt(ops: seq<Op>, oks: seq<bool>, maps: Maps, homes: seq<Home>, i: nat)
    requires i < |oks| <= |ops| && |maps| == |homes| && forall op :: op in ops ==> Names(op, |maps|)
  {
    Reports(ops[i], oks[i], AfterAll(ops[..i], oks[..i], maps, homes), homes)
  }

  // ---- Lists that hold maps ----

  predicate Entry(i: Item, v: map<int, Value>) {
    i.word.Type? && i.word.code in v && v[i.word.code] == Value(i.data, i.freeData)
  }

  predicate Has(m: Memory, s: seq<Ref>, code: int) {
    exists i :: 0 <= i < |s| && s[i] in m && m[s[i]].word == Type(code)
  }

  /** The items hold the entries of the map. */
  ghost predicate Shows(m: Memory, s: seq<Ref>, v: map<int, Value>) {
    && (forall i :: 0 <= i < |s| ==> s[i] in m && Entry(m[s[i]], v))
    && forall code :: code in v ==> Has(m, s, code)
  }

  /** Items of different types. */
  predicate Differ(m: Memory, s: seq<Ref>) {
    && (forall i :: 0 <= i < |s| ==> s[i] in m)
    && forall i, j :: 0 <= i < j < |s| ==> m[s[i]].word != m[s[j]].word
  }

  lemma PositionShows(m: Memory, s: seq<Ref>, v: map<int, Value>, code: int)
    requires Shows(m, s, v)
    ensures var k := Position(m, s, code);
      (k < |s| <==> code in v)
        && (k < |s| ==> s[k] in s && s[k] in m && v[code] == Value(m[s[k]].data, m[s[k]].freeData))
  {
    var k := Position(m, s, code);
    if code in v {
      var i :| 0 <= i < |s| && s[i] in m && m[s[i]].word == Type(code);
    }
  }

  lemma ShowsSame(m: Memory, m': Memory, s: seq<Ref>, v: map<int, Value>)
    requires Shows(m, s, v) && forall r :: r in s && r in m ==> r in m' && m'[r] == m[r]
    ensures Shows(m', s, v)
  {
    forall code | code in v ensures Has(m', s, code) {
      assert Has(m, s, code);
      hide Shows, Entry;
      var i :| 0 <= i < |s| && s[i] in m && m[s[i]].word == Type(code);
      assert s[i] in s && m'[s[i]] == m[s[i]];
    }
    forall i | 0 <= i < |s| ensures s[i] in m' && Entry(m'[s[i]], v) { assert s[i] in s; }
  }

  lemma ShowsSet(h: Heap, h': Heap, list: Option<Ref>, code: int, data: int, freeData: int, pooled: bool, s: seq<Ref>,
                 ok: bool, s': seq<Ref>, v: map<int, Value>)
    requires (forall r :: r in s ==> r in h.mem && r in h.live)
      && SetOutcome(h, h', list, code, data, freeData, pooled, s, ok, s')
    requires Shows(h.mem, s, v) && Differ(h.mem, s) && Distinct(s)
    ensures var v' := if ok && !(code in v && v[code].data == data) then v[code := Value(data, freeData)] else v;
      Shows(h'.mem, s', v')
  {
    PositionShows(h.mem, s, v, code);
    var k := Position(h.mem, s, code);
    if k < |s| {
      if data != h.mem[s[k]].data { ShowsReplaced(h.mem, s, v, k, data, freeData); }
    } else if ok {
      ShowsAdded(h.mem, s, s'[0], Item(Type(code), data, freeData, list), v);
      assert s' == [s'[0]] + s;
    }
  }

  lemma ShowsReplaced(m: Memory, s: seq<Ref>, v: map<int, Value>, k: nat, data: int, freeData: int)
    requires k < |s| && Shows(m, s, v) && Differ(m, s) && Distinct(s)
    ensures m[s[k]].word.Type?
    ensures Shows(m[s[k] := m[s[k]].(data := data, freeData := freeData)], s,
      v[m[s[k]].word.code := Value(data, freeData)])
  {
    var m', v' :=
      m[s[k] := m[s[k]].(data := data, freeData := freeData)], v[m[s[k]].word.code := Value(data, freeData)];
    forall i | 0 <= i < |s| ensures s[i] in m' && Entry(m'[s[i]], v') {
      if i < k { assert m[s[i]].word != m[s[k]].word; } else if i > k { assert m[s[k]].word != m[s[i]].word; }
    }
    forall c | c in v' ensures Has(m', s, c) {
      if c != m[s[k]].word.code {
        var i :| 0 <= i < |s| && s[i] in m && m[s[i]].word == Type(c);
        assert m'[s[i]].word == Type(c);
      } else {
        assert m'[s[k]].word == Type(c);
      }
    }
  }

  lemma ShowsAdded(m: Memory, s: seq<Ref>, r: Ref, item: Item, v: map<int, Value>)
    requires Shows(m, s, v) && r !in s && item.word.Type? && item.word.code !in v
    ensures Shows(m[r := item], [r] + s, v[item.word.code := Value(item.data, item.freeData)])
  {
    var m', s', v' := m[r := item], [r] + s, v[item.word.code := Value(item.data, item.freeData)];
    forall i | 0 <= i < |s'| ensures s'[i] in m' && Entry(m'[s'[i]], v') {
      if i > 0 { assert s'[i] == s[i - 1] && s[i - 1] in s && Entry(m[s[i - 1]], v); }
    }
    forall c | c in v' ensures Has(m', s', c) {
      if c == item.word.code {
        assert s'[0] == r;
      } else {
        var i :| 0 <= i < |s| && s[i] in m && m[s[i]].word == Type(c);
        assert s'[i + 1] == s[i] && s[i] in s;
      }
    }
  }

  lemma ShowsFreed(h: Heap, h': Heap, code: int, s: seq<Ref>, s': seq<Ref>, v: map<int, Value>)
    requires (forall r :: r in s ==> r in h.mem) && FreeOutcome(h, h', code, s, s') && Shows(h.mem, s, v)
      && Differ(h.mem, s)
    ensures Shows(h'.mem, s', v - {code})
  {
    PositionShows(h.mem, s, v, code);
    var k, m, m', v' := Position(h.mem, s, code), h.mem, h'.mem, v - {code};
    if k < |s| {
      forall i | 0 <= i < |s'| ensures s'[i] in m' && Entry(m'[s'[i]], v') {
        var j := if i < k then i else i + 1;
        assert s'[i] == s[j] && Entry(m[s[j]], v);
        if j < k { assert m[s[j]].word != m[s[k]].word; } else { assert m[s[k]].word != m[s[j]].word; }
      }
      forall c | c in v' ensures Has(m', s', c) {
        var j :| 0 <= j < |s| && s[j] in m && m[s[j]].word == Type(c);
        var i := if j < k then j else j - 1;
        assert s'[i] == s[j] && m'[s'[i]].word == Type(c);
      }
    } else {
      assert v' == v;
    }
  }

  // ---- Several lists ----

  predicate Somewhere(items: seq<seq<Ref>>, r: Ref) { exists k :: 0 <= k < |items| && r in items[k] }

  /** Each item in use is in exactly one list, and everything in a list is in use. */
  ghost predicate Shared(items: seq<seq<Ref>>, live: seq<Ref>) {
    && (forall j, k, r :: 0 <= j < |items| && 0 <= k < |items| && j != k && r in items[j] ==> r !in items[k])
    && (forall k, r :: 0 <= k < |items| && r in items[k] ==> r in live)
    && forall r :: r in live ==> Somewhere(items, r)
  }

  /** A list changes from `s` to `s'`, and other items in use stay so. */
  ghost predicate Moves(live: seq<Ref>, s: seq<Ref>, live': seq<Ref>, s': seq<Ref>) {
    && (forall r :: r in s' ==> r in live' && (r in s || r !in live))
    && (forall r :: r in live' ==> (r in live && r !in s) || r in s')
    && forall r :: r in live && r !in s ==> r in live'
  }

  lemma SharedUpdate(items: seq<seq<Ref>>, live: seq<Ref>, k: nat, s: seq<Ref>, live': seq<Ref>)
    requires Shared(items, live) && k < |items| && Moves(live, items[k], live', s)
    ensures Shared(items[k := s], live')
  {
    var items' := items[k := s];
    forall r | r in live' ensures Somewhere(items', r) {
      if r in s {
        assert r in items'[k];
      } else {
        var j :| 0 <= j < |items| && r in items[j];
        assert r in items'[j];
      }
    }
  }

  /** A list in memory, and what it holds. */
  ghost predicate Holding(m: Memory, live: seq<Ref>, head: Option<Ref>, s: seq<Ref>, v: map<int, Value>, home: Home) {
    && IsList(m, head, s) && Distinct(s) && (forall r :: r in s ==> r in live && r in m && m[r].word.Type?)
    && (forall i, j :: 0 <= i < j < |s| ==> m[s[i]].word != m[s[j]].word)
    && Shows(m, s, v) && forall r :: r in s ==> r.Pooled? == (home != InFunction)
  }

  lemma StillHolding(m: Memory, live: seq<Ref>, m': Memory, live': seq<Ref>, head: Option<Ref>, s: seq<Ref>,
                     v: map<int, Value>, home: Home)
    requires Holding(m, live, head, s, v, home) && forall r :: r in s && r in m ==>
      r in live' && r in m' && m'[r] == m[r]
    ensures Holding(m', live', head, s, v, home)
  {
    hide Shows;
    IsListSame(m, m', head, s);
    ShowsSame(m, m', s, v);
    assert forall i :: 0 <= i < |s| ==> s[i] in s;
  }

  lemma SetShares(h: Heap, h': Heap, list: Option<Ref>, code: int, data: int, freeData: int, pooled: bool, s: seq<Ref>,
                  ok: bool, s': seq<Ref>)
    requires (forall r :: r in s ==> r in h.mem && r in h.live)
      && SetOutcome(h, h', list, code, data, freeData, pooled, s, ok, s')
    requires forall r :: r in s ==> r.Pooled? == pooled
    ensures Moves(h.live, s, h'.live, s') && forall r :: r in s' ==> r.Pooled? == pooled
  {
    if Position(h.mem, s, code) == |s| && ok {
      assert s' == [s'[0]] + s;
    }
  }

  lemma FreeShares(h: Heap, h': Heap, code: int, s: seq<Ref>, s': seq<Ref>)
    requires (forall r :: r in s ==> r in h.mem && r in h.live) && Distinct(s) && FreeOutcome(h, h', code, s, s')
    ensures Moves(h.live, s, h'.live, s') && forall r :: r in s' ==> r in s
  {
    var k := Position(h.mem, s, code);
    if k < |s| { Pool.OthersStay(s, k); }
  }

  lemma HoldingList(pool: Pool, head: Option<Ref>, s: seq<Ref>, v: map<int, Value>, home: Home)
    requires Holding(pool.mem, pool.live, head, s, v, home)
    ensures pool.List(head, s) && Shows(pool.mem, s, v) && Differ(pool.mem, s) && Distinct(s)
    ensures forall r :: r in s ==> r in pool.live && r in pool.mem && r.Pooled? == (home != InFunction)
  {
    assert forall i :: 0 <= i < |s| ==> s[i] in s;
  }

  lemma ListHolding(pool: Pool, head: Option<Ref>, s: seq<Ref>, v: map<int, Value>, home: Home)
    requires pool.List(head, s) && Shows(pool.mem, s, v) && forall r :: r in s ==> r.Pooled? == (home != InFunction)
    ensures Holding(pool.mem, pool.live, head, s, v, home)
  {
  }

  /** `jit_meta_set` on a list that holds a map. */
  method SetOne(pool: Pool, head: Option<Ref>, code: int, data: int, freeData: int, home: Home, granted: bool,
                ghost s: seq<Ref>, ghost v: map<int, Value>) returns (ok: bool, head': Option<Ref>, ghost s': seq<Ref>)
    requires pool.Valid() && pool.Balanced() && Holding(pool.mem, pool.live, head, s, v, home)
    modifies pool
    ensures pool.Valid() && pool.Balanced() && Elsewhere(old(pool.mem), pool.mem, old(pool.live), s)
      && Moves(old(pool.live), s, pool.live, s')
    ensures var attaches := ok && !(code in v && v[code].data == data);
      && Holding(pool.mem, pool.live, head', s', if attaches then v[code := Value(data, freeData)] else v, home)
      && pool.attached == old(pool.attached) + if attaches && freeData != 0 then multiset{Call(freeData, data)}
        else multiset{}
    ensures ok <==> code in v || granted || (home != InFunction && old(pool.Spare()))
  {
    HoldingList(pool, head, s, v, home);
    PositionShows(pool.mem, s, v, code);
    hide Shows, IsList, Distinct, Differ, Pool.Valid, Pool.Balanced, Elsewhere, Moves, Pool.List, Pool.Spare;
    ghost var h := pool.Now();
    ok, head', s' := pool.MetaSet(head, code, data, freeData, home != InFunction, granted, s);
    ShowsSet(h, pool.Now(), head, code, data, freeData, home != InFunction, s, ok, s', v);
    SetShares(h, pool.Now(), head, code, data, freeData, home != InFunction, s, ok, s');
    ghost var v' := if ok && !(code in v && v[code].data == data) then v[code := Value(data, freeData)] else v;
    ListHolding(pool, head', s', v', home);
  }

  /** `jit_meta_free` on a list that holds a map. */
  method FreeOne(pool: Pool, head: Option<Ref>, code: int, home: Home, ghost s: seq<Ref>, ghost v: map<int, Value>)
    returns (head': Option<Ref>, ghost s': seq<Ref>)
    requires pool.Valid() && pool.Balanced() && Holding(pool.mem, pool.live, head, s, v, home)
    modifies pool
    ensures pool.Valid() && pool.Balanced() && Elsewhere(old(pool.mem), pool.mem, old(pool.live), s)
      && Moves(old(pool.live), s, pool.live, s')
    ensures Holding(pool.mem, pool.live, head', s', v - {code}, home) && pool.attached == old(pool.attached)
  {
    HoldingList(pool, head, s, v, home);
    hide Shows, IsList, Distinct, Differ, Pool.Valid, Pool.Balanced, Elsewhere, Moves, Pool.List;
    ghost var h := pool.Now();
    head', s' := pool.MetaFree(head, code, s);
    ShowsFreed(h, pool.Now(), code, s, s', v);
    FreeShares(h, pool.Now(), code, s, s');
    ListHolding(pool, head', s', v - {code}, home);
  }

  /** `jit_meta_destroy` on a list that holds a map. */
  method DestroyOne(pool: Pool, head: Option<Ref>, home: Home, ghost s: seq<Ref>, ghost v: map<int, Value>)
    requires pool.Valid() && pool.Balanced() && Holding(pool.mem, pool.live, head, s, v, home)
    modifies pool
    ensures pool.Valid() && pool.Balanced() && Elsewhere(old(pool.mem), pool.mem, old(pool.live), s)
      && Moves(old(pool.live), s, pool.live, [])
    ensures Holding(pool.mem, pool.live, None, [], map[], home) && pool.attached == old(pool.attached)
  {
    HoldingList(pool, head, s, v, home);
    pool.MetaDestroy(head, s);
  }

  /** Items that do not come from the pool survive it. */
  lemma OwnHolding(m: Memory, live: seq<Ref>, head: Option<Ref>, s: seq<Ref>, v: map<int, Value>, home: Home)
    requires Holding(m, live, head, s, v, home)
    ensures if home == InFunction then Holding(m, Kind(live, false), head, s, v, home)
      else Holding(m, Kind(live, false), None, [], map[], home)
  {
  }

  lemma SharedKind(items: seq<seq<Ref>>, live: seq<Ref>, homes: seq<Home>, items': seq<seq<Ref>>,
                   m: Memory, heads: seq<Option<Ref>>, maps: Maps)
    requires Shared(items, live) && |items'| == |items| == |homes| == |heads| == |maps|
    requires forall k :: 0 <= k < |items| ==> Holding(m, live, heads[k], items[k], maps[k], homes[k])
    requires forall k :: 0 <= k < |items| ==> items'[k] == if homes[k] == InFunction then items[k] else []
    ensures Shared(items', Kind(live, false))
  {
    forall r | r in Kind(live, false) ensures Somewhere(items', r) {
      var k :| 0 <= k < |items| && r in items[k];
      assert Holding(m, live, heads[k], items[k], maps[k], homes[k]);
      assert r in items'[k];
    }
    forall k, r | 0 <= k < |items'| && r in items'[k] ensures r in Kind(live, false) {
      assert Holding(m, live, heads[k], items[k], maps[k], homes[k]);
    }
  }

  lemma NothingShared(items: seq<seq<Ref>>, live: seq<Ref>)
    requires Shared(items, live) && forall k :: 0 <= k < |items| ==> items[k] == []
    ensures live == []
  {
    assert live == [] || live[0] in live;
    assert forall r :: !Somewhere(items, r);
  }

  /** The metadata of one function. */
  class Metas {
    const pool: Pool
    const homes: seq<Home>
    const heads: array<Option<Ref>>
    ghost var items: seq<seq<Ref>>
    ghost var maps: Maps

    constructor (homes: seq<Home>, perBlock: nat)
      requires perBlock > 0
      ensures Valid() && fresh(pool) && fresh(heads) && this.homes == homes && maps == Empty(|homes|)
      ensures pool.log == [] && pool.attached == multiset{}
    {
      this.homes := homes;
      pool := new Pool(perBlock);
      heads := new Option<Ref>[|homes|](_ => None);
      items := seq(|homes|, _ => []);
      maps := Empty(|homes|);
    }

    ghost predicate Valid()
      reads this, pool, heads
    {
      && pool.Valid() && pool.Balanced() && heads.Length == |homes| == |items| == |maps| && Shared(items, pool.live)
      && forall k :: 0 <= k < |items| ==> Holding(pool.mem, pool.live, heads[k], items[k], maps[k], homes[k])
    }

    /** List `k` was changed, and the others were left alone. */
    lemma Changed(k: nat, items0: seq<seq<Ref>>, maps0: Maps, heads0: seq<Option<Ref>>, m: Memory, live: seq<Ref>)
      requires k < |items0| == |maps0| == |heads0| == |items| == |maps| == heads.Length == |homes|
      requires items == items0[k := items[k]] && maps == maps0[k := maps[k]] && heads[..] == heads0[k := heads[k]]
      requires forall j :: 0 <= j < |items0| ==> Holding(m, live, heads0[j], items0[j], maps0[j], homes[j])
      requires Shared(items0, live) && Shared(items, pool.live) && Elsewhere(m, pool.mem, live, items0[k])
      requires Holding(pool.mem, pool.live, heads[k], items[k], maps[k], homes[k])
      ensures forall j :: 0 <= j < |items| ==> Holding(pool.mem, pool.live, heads[j], items[j], maps[j], homes[j])
    {
      hide Holding;
      forall j | 0 <= j < |items| && j != k
        ensures Holding(pool.mem, pool.live, heads[j], items[j], maps[j], homes[j]) {
        assert heads[..][j] == heads0[j] && items[j] == items0[j];
        StillHolding(m, live, pool.mem, pool.live, heads0[j], items0[j], maps0[j], homes[j]);
      }
    }

    method SetMeta(k: nat, code: int, data: int, freeData: int, granted: bool) returns (ok: bool)
      requires Valid() && k < |homes|
      modifies this`items, this`maps, pool, heads
      ensures Valid()
      ensures var op := Set(k, code, data, freeData, granted);
        maps == After(op, ok, old(maps), homes) && pool.attached == old(pool.attached) + Gives(op, ok, old(maps))
      ensures ok <==> code in old(maps)[k] || granted || (homes[k] != InFunction && old(pool.Spare()))
      ensures ok ==> code in maps[k] && maps[k][code].data == data
    {
      hide Shared, Holding, Elsewhere, Moves, Pool.Valid, Pool.Balanced, Pool.Spare;
      ghost var m, live, items0, maps0, heads0 := pool.mem, pool.live, items, maps, heads[..];
      var head;
      ghost var s';
      ok, head, s' := SetOne(pool, heads[k], code, data, freeData, homes[k], granted, items[k], maps[k]);
      heads[k] := head;
      items := items[k := s'];
      maps := maps[k := After(Set(k, code, data, freeData, granted), ok, maps, homes)[k]];
      SharedUpdate(items0, live, k, s', pool.live);
      Changed(k, items0, maps0, heads0, m, live);
    }

    method FreeMeta(k: nat, code: int)
      requires Valid() && k < |homes|
      modifies this`items, this`maps, pool, heads
      ensures Valid() && maps == After(Free(k, code), true, old(maps), homes) && pool.attached == old(pool.attached)
    {
      hide Shared, Holding, Elsewhere, Moves, Pool.Valid, Pool.Balanced;
      ghost var m, live, items0, maps0, heads0 := pool.mem, pool.live, items, maps, heads[..];
      var head;
      ghost var s';
      head, s' := FreeOne(pool, heads[k], code, homes[k], items[k], maps[k]);
      heads[k] := head;
      items := items[k := s'];
      maps := maps[k := maps[k] - {code}];
      SharedUpdate(items0, live, k, s', pool.live);
      Changed(k, items0, maps0, heads0, m, live);
    }

    method DestroyMeta(k: nat)
      requires Valid() && k < |homes|
      modifies this`items, this`maps, pool, heads
      ensures Valid() && maps == After(Destroy(k), true, old(maps), homes) && pool.attached == old(pool.attached)
      ensures items == old(items)[k := []]
    {
      hide Shared, Holding, Elsewhere, Moves, Pool.Valid, Pool.Balanced;
      ghost var m, live, items0, maps0, heads0 := pool.mem, pool.live, items, maps, heads[..];
      DestroyOne(pool, heads[k], homes[k], items[k], maps[k]);
      heads[k] := None;
      items := items[k := []];
      maps := maps[k := map[]];
      SharedUpdate(items0, live, k, [], pool.live);
      Changed(k, items0, maps0, heads0, m, live);
    }

    /** `_jit_block_free`: the metadata of all blocks is destroyed, list by list. */
    method FreeBlocks()
      requires Valid()
      modifies this`items, this`maps, pool, heads
      ensures Valid() && pool.attached == old(pool.attached)
      ensures Outside(maps, map[], homes) == Outside(old(maps), map[], homes)
    {
      Sizes();
      hide Valid;
      for k := 0 to |homes|
        invariant Valid() && pool.attached == old(pool.attached) && |maps| == |homes|
        invariant forall j :: 0 <= j < |homes| && homes[j] == InFunction ==> maps[j] == old(maps)[j]
      {
        if homes[k] == InBlock { DestroyMeta(k); }
      }
    }

    lemma Sizes()
      requires Valid()
      ensures |maps| == |homes| == |items|
    {
    }

    /** `_jit_function_free_builder`: what is left in the pool is left to the pool's finaliser, and the lists of the
        blocks and of the builder are gone. */
    method FreeBuilder()
      requires Valid()
      modifies this`items, this`maps, pool, heads
      ensures Valid() && pool.attached == old(pool.attached) && pool.blocks == 0 && pool.freeList == None
      ensures maps == After(EndBuilder, true, old(maps), homes)
      ensures forall k :: 0 <= k < |homes| && homes[k] != InFunction ==> items[k] == []
    {
      hide Valid, Pool.Valid, Pool.Balanced, Shared, Holding;
      FreeBlocks();
      ghost var m, live, items0, maps0, heads0 := pool.mem, pool.live, items, maps, heads[..];
      Facts();
      DropPool();
      items := Outside(items, [], homes);
      maps := Outside(maps, map[], homes);
      OwnLeft(m, live, items0, maps0, heads0);
    }

    method DropPool()
      requires pool.Valid() && pool.Balanced() && heads.Length == |homes|
      modifies pool, heads
      ensures pool.Valid() && pool.Balanced() && pool.mem == old(pool.mem) && pool.live == Kind(old(pool.live), false)
      ensures pool.attached == old(pool.attached) && pool.blocks == 0 && pool.freeList == None
      ensures forall k :: 0 <= k < heads.Length ==> heads[k] == if homes[k] == InFunction then old(heads[k]) else None
    {
      hide Pool.Valid, Pool.Balanced, Carved, Calls, Owed, Kind;
      pool.PoolFree();
      forall k | 0 <= k < heads.Length && homes[k] != InFunction {
        heads[k] := None;
      }
    }

    lemma Facts()
      requires Valid()
      ensures pool.Valid() && pool.Balanced() && heads.Length == |homes| == |items| == |maps|
        && Shared(items, pool.live)
      ensures forall k :: 0 <= k < |items| ==> Holding(pool.mem, pool.live, heads[k], items[k], maps[k], homes[k])
    {
    }

    lemma OwnLeft(m: Memory, live: seq<Ref>, items0: seq<seq<Ref>>, maps0: Maps, heads0: seq<Option<Ref>>)
      requires pool.Valid() && pool.Balanced() && pool.mem == m && pool.live == Kind(live, false)
      requires |homes| == |items0| == |maps0| == |heads0| == heads.Length && Shared(items0, live)
      requires forall k :: 0 <= k < |items0| ==> Holding(m, live, heads0[k], items0[k], maps0[k], homes[k])
      requires items == Outside(items0, [], homes) && maps == Outside(maps0, map[], homes)
      requires forall k :: 0 <= k < heads.Length ==> heads[k] == if homes[k] == InFunction then heads0[k] else None
      ensures Valid()
    {
      hide Shared, Holding, Pool.Valid, Pool.Balanced;
      SharedKind(items0, live, homes, items, m, heads0, maps0);
      forall k | 0 <= k < |items| ensures Holding(pool.mem, pool.live, heads[k], items[k], maps[k], homes[k]) {
        OwnHolding(m, live, heads0[k], items0[k], maps0[k], homes[k]);
      }
    }

    lemma AllCalled()
      requires Valid() && pool.live == []
      ensures multiset(pool.log) == pool.attached
    {
    }

    lemma Sharing()
      requires Valid()
      ensures Shared(items, pool.live) && |items| == |homes|
    {
    }

    /** The lists that the end of the builder left. */
    method FreeOwn()
      requires Valid() && forall k :: 0 <= k < |homes| && homes[k] != InFunction ==> k < |items| && items[k] == []
      modifies this`items, this`maps, pool, heads
      ensures Valid() && pool.attached == old(pool.attached) && forall k :: 0 <= k < |items| ==> items[k] == []
    {
      hide Valid, After, Shared;
      Sharing();
      for k := 0 to |homes|
        invariant Valid() && pool.attached == old(pool.attached) && |items| == |homes|
        invariant forall j :: 0 <= j < |homes| && (j < k || homes[j] != InFunction) ==> items[j] == []
      {
        if homes[k] == InFunction { DestroyMeta(k); }
      }
    }

    /** `_jit_function_destroy`. */
    method DestroyFunction()
      requires Valid()
      modifies this`items, this`maps, pool, heads
      ensures Valid() && pool.attached == old(pool.attached) && pool.live == []
    {
      FreeBuilder();
      Sharing();
      FreeOwn();
      Sharing();
      NothingShared(items, pool.live);
    }

    /** `jit_meta_get`. */
    method GetMeta(k: nat, code: int) returns (data: int)
      requires Valid() && k < |homes|
      ensures data == if code in maps[k] then maps[k][code].data else 0
    {
      assert Holding(pool.mem, pool.live, heads[k], items[k], maps[k], homes[k]);
      PositionShows(pool.mem, items[k], maps[k], code);
      data := pool.MetaGet(heads[k], code, items[k]);
    }
  }

  function Empty(n: nat): Maps { seq(n, _ => map[]) }

  lemma OneMore(ops: seq<Op>, oks: seq<bool>, ok: bool, maps: Maps, homes: seq<Home>)
    requires |oks| < |ops| && |maps| == |homes| && forall op :: op in ops ==> Names(op, |maps|)
    ensures var i := |oks|;
      var before := AfterAll(ops[..i], oks, maps, homes);
      && AfterAll(ops[..i + 1], oks + [ok], maps, homes) == After(ops[i], ok, before, homes)
      && Attached(ops[..i + 1], oks + [ok], maps, homes)
        == Attached(ops[..i], oks, maps, homes) + Gives(ops[i], ok, before)
  {
    var i, p, q := |oks|, ops[..|oks| + 1], oks + [ok];
    assert |p| == |q| == i + 1 && p[..i] == ops[..i] && q[..i] == oks && p[i] == ops[i] && q[i] == ok;
    assert forall op :: op in p ==> op in ops;
    LastOne(p, q, maps, homes);
  }

  lemma LastOne(ops: seq<Op>, oks: seq<bool>, maps: Maps, homes: seq<Home>)
    requires |oks| == |ops| > 0 && |maps| == |homes| && forall op :: op in ops ==> Names(op, |maps|)
    ensures var i := |ops| - 1;
      var before := AfterAll(ops[..i], oks[..i], maps, homes);
      && AfterAll(ops, oks, maps, homes) == After(ops[i], oks[i], before, homes)
      && Attached(ops, oks, maps, homes) == Attached(ops[..i], oks[..i], maps, homes) + Gives(ops[i], oks[i], before)
  {
    hide After, Gives, Names;
  }

  /** For every sequence of operations, in any order and on any lists, followed by the end of the function: each
      destructor that was attached was called exactly once, with its data, and nothing else was called. */
  method Lifetime(homes: seq<Home>, perBlock: nat, ops: seq<Op>) returns (oks: seq<bool>, calls: seq<Call>)
    requires perBlock > 0 && forall op :: op in ops ==> Names(op, |homes|)
    ensures |oks| == |ops| && multiset(calls) == Attached(ops, oks, Empty(|homes|), homes)
    ensures forall i :: 0 <= i < |ops| ==> ReportsAt(ops, oks, Empty(|homes|), homes, i)
  {
    hide Metas.Valid, AfterAll, Attached, After, Gives, Pool.Balanced, Reports;
    var f := new Metas(homes, perBlock);
    oks := [];
    NothingYet(homes);
    assert ops[..0] == [];
    for i := 0 to |ops|
      invariant f.Valid() && fresh(f) && fresh(f.pool) && fresh(f.heads) && f.homes == homes && |oks| == i
      invariant f.maps == AfterAll(ops[..i], oks, Empty(|homes|), homes)
        && f.pool.attached == Attached(ops[..i], oks, Empty(|homes|), homes)
      invariant forall j :: 0 <= j < i ==> ReportsAt(ops, oks, Empty(|homes|), homes, j)
    {
      var ok := Perform(f, ops[i]);
      forall j | 0 <= j <= i ensures ReportsAt(ops, oks + [ok], Empty(|homes|), homes, j) {
        assert (oks + [ok])[..j] == oks[..j] && oks[..|oks|] == oks;
        assert j < i ==> ReportsAt(ops, oks, Empty(|homes|), homes, j);
      }
      OneMore(ops, oks, ok, Empty(|homes|), homes);
      oks := oks + [ok];
    }
    assert ops[..|ops|] == ops;
    f.DestroyFunction();
    f.AllCalled();
    calls := f.pool.log;
  }

  lemma NothingYet(homes: seq<Home>)
    ensures var none := Empty(|homes|);
      AfterAll([], [], none, homes) == none && Attached([], [], none, homes) == multiset{}
  {
  }

  method Perform(f: Metas, op: Op) returns (ok: bool)
    requires f.Valid() && Names(op, |f.homes|)
    modifies f`items, f`maps, f.pool, f.heads
    ensures f.Valid() && f.maps == After(op, ok, old(f.maps), f.homes)
      && f.pool.attached == old(f.pool.attached) + Gives(op, ok, old(f.maps)) && Reports(op, ok, old(f.maps), f.homes)
  {
    hide Metas.Valid;
    ok := true;
    match op
    case Set(k, code, data, freeData, granted) => ok := f.SetMeta(k, code, data, freeData, granted);
    case Free(k, code) => f.FreeMeta(k, code);
    case Destroy(k) => f.DestroyMeta(k);
    case EndBuilder => f.FreeBuilder();
  }
}
