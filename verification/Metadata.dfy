/** Metadata lists with destructors (jit/jit-meta.c), and the memory pool that holds the items of a function that is
    being built (jit/jit-pool.c). */
module Metadata {
  import opened Sequences
  import opened Wrappers

  /** Where an item is: an element of a pool block, or memory of its own. */
  datatype Ref = Pooled(block: nat, elem: nat) | Own(n: nat)

  /** The first word of an item is its type while it is in use, and the link to the next free item afterwards. */
  datatype Word = Type(code: int) | Link(next: Option<Ref>)

  /** `_jit_meta`.  A `freeData` of 0 stands for no destructor. */
  datatype Item = Item(word: Word, data: int, freeData: int, next: Option<Ref>)

  const ZERO := Item(Type(0), 0, 0, None)

  type Memory = map<Ref, Item>

  /** A destructor and its argument. */
  datatype Call = Call(freeData: int, data: int)

  /** The destructor call that an item still owes. */
  function Owes(i: Item): multiset<Call> { if i.freeData == 0 then multiset{} else multiset{Call(i.freeData, i.data)} }

  function Owed(m: Memory, s: seq<Ref>): multiset<Call>
    requires forall r :: r in s ==> r in m
  {
    if s == [] then multiset{} else Owed(m, s[..|s| - 1]) + Owes(m[s[|s| - 1]])
  }

  predicate Distinct(s: seq<Ref>) { forall i, j :: 0 <= i < j < |s| ==> s[i] != s[j] }

  lemma {:induction false} OwedSame(m: Memory, m': Memory, s: seq<Ref>)
    requires forall r :: r in s ==> r in m && r in m' && Owes(m[r]) == Owes(m'[r])
    ensures Owed(m, s) == Owed(m', s)
  {
    if s != [] { OwedSame(m, m', s[..|s| - 1]); }
  }

  lemma OwedAppend(m: Memory, s: seq<Ref>, r: Ref)
    requires r in m && forall x :: x in s ==> x in m
    ensures Owed(m, s + [r]) == Owed(m, s) + Owes(m[r])
  {
    assert (s + [r])[..|s|] == s;
  }

  function Without(s: seq<Ref>, i: nat): (t: seq<Ref>)
    requires i < |s|
    ensures |t| == |s| - 1 && forall k :: 0 <= k < |t| ==> t[k] == s[if k < i then k else k + 1]
  {
    s[..i] + s[i + 1..]
  }

  lemma {:induction false} OwedWithout(m: Memory, s: seq<Ref>, i: nat)
    requires i < |s| && forall r :: r in s ==> r in m
    ensures (forall r :: r in Without(s, i) ==> r in s) && Owed(m, s) == Owed(m, Without(s, i)) + Owes(m[s[i]])
  {
    hide Owes;
    var last := |s| - 1;
    var a := s[..last];
    if i == last {
      assert Without(s, i) == a;
    } else {
      assert Owed(m, s) == Owed(m, a) + Owes(m[s[last]]);
      hide Owed;
      OwedWithout(m, a, i);
      OwedAppend(m, Without(a, i), s[last]);
      assert Without(s, i) == Without(a, i) + [s[last]];
    }
  }

  lemma OwedUpdate(m: Memory, s: seq<Ref>, i: nat, item: Item)
    requires i < |s| && Distinct(s) && forall r :: r in s ==> r in m
    ensures Owed(m[s[i] := item], s) + Owes(m[s[i]]) == Owed(m, s) + Owes(item)
  {
    var m' := m[s[i] := item];
    OwedWithout(m, s, i);
    OwedWithout(m', s, i);
    OwedSame(m, m', Without(s, i));
  }

  /** The elements of a pool that were carved out of its blocks, in the order in which the pool is torn down: the
      newest block first, each from its end. */
  function Elements(block: nat, n: nat): (s: seq<Ref>)
    ensures |s| == n && forall k :: 0 <= k < n ==> s[k] == Pooled(block, n - 1 - k)
  {
    if n == 0 then [] else [Pooled(block, n - 1)] + Elements(block, n - 1)
  }

  function Carved(blocks: nat, inLast: nat, perBlock: nat): seq<Ref> {
    if blocks == 0 then [] else Elements(blocks - 1, inLast) + Carved(blocks - 1, perBlock, perBlock)
  }

  lemma {:induction false} CarvedAre(blocks: nat, inLast: nat, perBlock: nat, r: Ref)
    ensures r in Carved(blocks, inLast, perBlock) <==>
      r.Pooled? && r.block < blocks && r.elem < if r.block == blocks - 1 then inLast else perBlock
  {
    if blocks > 0 {
      CarvedAre(blocks - 1, perBlock, perBlock, r);
      var e := Elements(blocks - 1, inLast);
      if r.Pooled? && r.block == blocks - 1 && r.elem < inLast { assert e[inLast - 1 - r.elem] == r; }
    }
  }

  lemma {:induction false} CarvedOnce(blocks: nat, inLast: nat, perBlock: nat)
    ensures Distinct(Carved(blocks, inLast, perBlock))
  {
    if blocks > 0 {
      CarvedOnce(blocks - 1, perBlock, perBlock);
      var e, c := Elements(blocks - 1, inLast), Carved(blocks - 1, perBlock, perBlock);
      forall k | 0 <= k < |c| ensures c[k].Pooled? && c[k].block < blocks - 1 {
        CarvedAre(blocks - 1, perBlock, perBlock, c[k]);
        assert c[k] in c;
      }
    }
  }

  /** The free list: each free item links to the next one. */
  predicate FreeChain(m: Memory, head: Option<Ref>, free: seq<Ref>)
    decreases |free|
  {
    if free == [] then head == None
    else head == Some(free[0]) && free[0] in m && m[free[0]].word.Link? && FreeChain(m, m[free[0]].word.next, free[1..])
  }

  lemma {:induction false} FreeChainSame(m: Memory, m': Memory, head: Option<Ref>, free: seq<Ref>)
    requires FreeChain(m, head, free) && forall r :: r in free ==> r in m' && (r in m ==> m'[r] == m[r])
    ensures FreeChain(m', head, free)
    decreases |free|
  {
    if free != [] { FreeChainSame(m, m', m[free[0]].word.next, free[1..]); }
  }

  lemma ChainPushed(m: Memory, head: Option<Ref>, free: seq<Ref>, item: Ref)
    requires FreeChain(m, head, free) && Distinct(free) && item in m && item !in free
      && forall r :: r in free ==> r in m
    ensures FreeChain(m[item := m[item].(word := Link(head))], Some(item), [item] + free) && Distinct([item] + free)
  {
    FreeChainSame(m, m[item := m[item].(word := Link(head))], head, free);
    assert ([item] + free)[1..] == free;
  }

  /** Two lists without repetition of the same items, one item less each. */
  lemma LessOne(s: seq<Ref>, t: seq<Ref>, i: nat)
    requires Distinct(s) && Distinct(t) && (forall r :: r in s <==> r in t) && i < |t| && s != [] && t[i] == s[|s| - 1]
    ensures Distinct(s[..|s| - 1]) && Distinct(Without(t, i)) && forall r :: r in s[..|s| - 1] <==> r in Without(t, i)
  {
    var last := |s| - 1;
    var a, b := s[..last], Without(t, i);
    forall r | r in a ensures r in b {
      var k :| 0 <= k < last && a[k] == r;
      assert s[k] == r && r in t;
      var j :| 0 <= j < |t| && t[j] == r;
      assert b[if j < i then j else j - 1] == r;
    }
    forall r | r in b ensures r in a {
      var k :| 0 <= k < |b| && b[k] == r;
      assert t[if k < i then k else k + 1] == r && r in t && r in s && r != s[last];
    }
  }

  lemma {:induction false} OwedPermuted(m: Memory, s: seq<Ref>, t: seq<Ref>)
    requires Distinct(s) && Distinct(t) && (forall r :: r in s <==> r in t) && forall r :: r in s ==> r in m
    ensures Owed(m, s) == Owed(m, t)
    decreases |s|
  {
    hide Owes, Distinct;
    assert t != [] ==> t[0] in t;
    if s != [] {
      var last := |s| - 1;
      assert s[last] in t;
      var i :| 0 <= i < |t| && t[i] == s[last];
      LessOne(s, t, i);
      OwedPermuted(m, s[..last], Without(t, i));
      OwedWithout(m, t, i);
    }
  }

  lemma {:induction false} OwedNothing(m: Memory, s: seq<Ref>)
    requires forall r :: r in s ==> r in m && m[r].freeData == 0
    ensures Owed(m, s) == multiset{}
  {
    if s != [] { OwedNothing(m, s[..|s| - 1]); }
  }

  lemma {:induction false} OwedConcat(m: Memory, a: seq<Ref>, b: seq<Ref>)
    requires forall r :: r in a + b ==> r in m
    ensures (forall r :: r in a ==> r in a + b) && (forall r :: r in b ==> r in a + b)
      && Owed(m, a + b) == Owed(m, a) + Owed(m, b)
  {
    if b == [] {
      assert a + b == a;
    } else {
      var last := |b| - 1;
      assert a + b == (a + b[..last]) + [b[last]];
      OwedConcat(m, a, b[..last]);
      OwedAppend(m, a + b[..last], b[last]);
    }
  }

  /** The items of one kind. */
  function Kind(s: seq<Ref>, pooled: bool): (t: seq<Ref>)
    ensures forall r :: r in t <==> r in s && r.Pooled? == pooled
    ensures Distinct(s) ==> Distinct(t)
  {
    if s == [] then []
    else
      var rest := Kind(s[..|s| - 1], pooled);
      if s[|s| - 1].Pooled? == pooled then rest + [s[|s| - 1]] else rest
  }

  lemma Swap(a: multiset<Call>, b: multiset<Call>, x: multiset<Call>)
    ensures (a + b) + x == (a + x) + b && (a + b) + x == a + (b + x)
  {
  }

  lemma {:induction false} OwedKinds(m: Memory, s: seq<Ref>)
    requires forall r :: r in s ==> r in m
    ensures Owed(m, s) == Owed(m, Kind(s, true)) + Owed(m, Kind(s, false))
  {
    if s != [] {
      hide Owes;
      var last := |s| - 1;
      var p, o := Kind(s[..last], true), Kind(s[..last], false);
      OwedKinds(m, s[..last]);
      OwedAppend(m, if s[last].Pooled? then p else o, s[last]);
      Swap(Owed(m, p), Owed(m, o), Owes(m[s[last]]));
    }
  }

  function CallOf(i: Item): seq<Call> { if i.freeData == 0 then [] else [Call(i.freeData, i.data)] }

  /** The calls that a finaliser makes which visits the items in order. */
  function Calls(m: Memory, s: seq<Ref>): seq<Call>
    requires forall r :: r in s ==> r in m
  {
    if s == [] then []
    else CallOf(m[s[0]]) + Calls(m, s[1..])
  }

  lemma {:induction false} CallsOwed(m: Memory, s: seq<Ref>)
    requires forall r :: r in s ==> r in m
    ensures multiset(Calls(m, s)) == Owed(m, s)
  {
    if s != [] {
      CallsOwed(m, s[1..]);
      OneOwed(m, s[0]);
      hide Owes, Owed;
      var i := m[s[0]];
      var first := if i.freeData == 0 then [] else [Call(i.freeData, i.data)];
      assert s == [s[0]] + s[1..];
      OwedConcat(m, [s[0]], s[1..]);
      assert multiset(first + Calls(m, s[1..])) == multiset(first) + multiset(Calls(m, s[1..]));
    }
  }

  lemma OneOwed(m: Memory, r: Ref)
    requires r in m
    ensures Owed(m, [r]) == Owes(m[r])
    ensures var i := m[r]; multiset(if i.freeData == 0 then [] else [Call(i.freeData, i.data)]) == Owes(i)
  {
    assert [r][..0] == [] && Owed(m, []) == multiset{};
  }

  lemma {:induction false} CallsConcat(m: Memory, a: seq<Ref>, b: seq<Ref>)
    requires forall r :: r in a + b ==> r in m
    ensures (forall r :: r in a ==> r in a + b) && (forall r :: r in b ==> r in a + b)
      && Calls(m, a + b) == Calls(m, a) + Calls(m, b)
  {
    hide CallOf;
    if a == [] {
      assert a + b == b;
    } else {
      assert (a + b)[1..] == a[1..] + b;
      CallsConcat(m, a[1..], b);
      Regroup(CallOf(m[a[0]]), Calls(m, a[1..]), Calls(m, b));
    }
  }

  /** The items of a list, first one first. */
  predicate IsList(m: Memory, head: Option<Ref>, s: seq<Ref>)
    decreases |s|
  {
    if s == [] then head == None else head == Some(s[0]) && s[0] in m && IsList(m, m[s[0]].next, s[1..])
  }

  lemma {:induction false} IsListSame(m: Memory, m': Memory, head: Option<Ref>, s: seq<Ref>)
    requires IsList(m, head, s) && forall r :: r in s ==> r in m' && (r in m ==> m'[r].next == m[r].next)
    ensures IsList(m', head, s)
    decreases |s|
  {
    if s != [] { IsListSame(m, m', m[s[0]].next, s[1..]); }
  }

  /** Where the list has an item of the given type; its length if there is none. */
  function Position(m: Memory, s: seq<Ref>, code: int): (k: nat)
    ensures k <= |s| && (k < |s| ==> s[k] in m && m[s[k]].word == Type(code))
    ensures forall i :: 0 <= i < k ==> s[i] in m ==> m[s[i]].word != Type(code)
  {
    if s == [] || (s[0] in m && m[s[0]].word == Type(code)) then 0 else Position(m, s[1..], code) + 1
  }

  /** Where the link to the `k`th item comes from. */
  lemma {:induction false} ListAt(m: Memory, head: Option<Ref>, s: seq<Ref>, k: nat)
    requires IsList(m, head, s) && k <= |s|
    ensures forall r :: r in s ==> r in m
    ensures var at := if k == 0 then head else m[s[k - 1]].next; at == if k == |s| then None else Some(s[k])
    decreases |s|
  {
    if s != [] {
      if k > 0 { ListAt(m, m[s[0]].next, s[1..], k - 1); } else { ListAt(m, m[s[0]].next, s[1..], 0); }
      forall r | r in s ensures r in m { assert r == s[0] || r in s[1..]; }
    }
  }

  /** Taking the `k`th item out. */
  lemma {:induction false} Unlinked(m: Memory, m': Memory, head: Option<Ref>, s: seq<Ref>, k: nat)
    requires IsList(m, head, s) && k < |s| && Distinct(s) && s[k] in m
    requires forall i :: 0 <= i < |s| && i != k ==>
      s[i] in m' && (s[i] in m ==> m'[s[i]].next == if i + 1 == k then m[s[k]].next else m[s[i]].next)
    ensures IsList(m', if k == 0 then m[s[k]].next else head, Without(s, k))
    decreases |s|
  {
    if k == 0 {
      assert Without(s, 0) == s[1..];
      forall r | r in s[1..] ensures r in m' && (r in m ==> m'[r].next == m[r].next) {
        var i :| 0 <= i < |s| - 1 && s[1..][i] == r;
        assert s[i + 1] == r;
      }
      IsListSame(m, m', m[s[0]].next, s[1..]);
    } else {
      var t := s[1..];
      assert forall i :: 0 <= i < |t| ==> t[i] == s[i + 1];
      Unlinked(m, m', m[s[0]].next, t, k - 1);
      assert Without(s, k) == [s[0]] + Without(t, k - 1);
      assert Without(s, k)[1..] == Without(t, k - 1);
    }
  }

  lemma CallsOne(m: Memory, r: Ref)
    requires r in m
    ensures multiset(Calls(m, [r])) == Owes(m[r])
  {
    CallsOwed(m, [r]);
    OneOwed(m, r);
  }

  lemma CallsSame(m: Memory, m': Memory, r: Ref)
    requires r in m && r in m' && m'[r] == m[r]
    ensures Calls(m', [r]) == Calls(m, [r])
  {
    assert [r][1..] == [] && Calls(m', []) == Calls(m, []);
  }

  /** The destructor calls made, and those still to be made. */
  function Due(log: seq<Call>, m: Memory, live: seq<Ref>): multiset<Call>
    requires forall r :: r in live ==> r in m
  {
    multiset(log) + Owed(m, live)
  }

  lemma ReplacedDue(log: seq<Call>, m: Memory, live: seq<Ref>, r: Ref, item: Item)
    requires r in live && Distinct(live) && forall x :: x in live ==> x in m
    ensures Due(log + Calls(m, [r]), m[r := item], live) == Due(log, m, live) + Owes(item)
  {
    hide Owes, Owed;
    var i :| 0 <= i < |live| && live[i] == r;
    OwedUpdate(m, live, i, item);
    CallsOne(m, r);
    Rearrange(multiset(log), Owed(m[r := item], live), Owes(m[r]), Owed(m, live), Owes(item));
  }

  lemma Rearrange(a: multiset<Call>, b: multiset<Call>, c: multiset<Call>, d: multiset<Call>, e: multiset<Call>)
    requires b + c == d + e
    ensures (a + c) + b == (a + d) + e
  {
    assert (a + c) + b == a + (b + c) && a + (d + e) == (a + d) + e;
  }

  lemma AddedDue(log: seq<Call>, m: Memory, live: seq<Ref>, r: Ref, item: Item)
    requires r !in live && forall x :: x in live ==> x in m
    ensures Due(log, m[r := item], live + [r]) == Due(log, m, live) + Owes(item)
  {
    OwedSame(m, m[r := item], live);
    OwedAppend(m[r := item], live, r);
  }

  /** Items whose destructors were called and which were given back owe nothing any more. */
  lemma GoneDue(log: seq<Call>, m: Memory, live: seq<Ref>, m': Memory, live': seq<Ref>, gone: seq<Ref>)
    requires Distinct(live) && Distinct(live') && Distinct(gone) && (forall r :: r in live ==> r in m)
      && (forall r :: r in gone ==> r in live)
    requires forall r :: r in live' <==> r in live && r !in gone
    requires forall r :: r in live' ==> r in m' && Owes(m'[r]) == Owes(m[r])
    ensures Due(log + Calls(m, gone), m', live') == Due(log, m, live)
  {
    hide Owes, Owed, Calls, Distinct;
    CallsOwed(m, gone);
    OwedSame(m, m', live');
    DistinctConcat(gone, live');
    OwedPermuted(m, live, gone + live');
    OwedConcat(m, gone, live');
    assert multiset(log + Calls(m, gone)) == multiset(log) + Owed(m, gone);
  }

  lemma DistinctConcat(a: seq<Ref>, b: seq<Ref>)
    requires Distinct(a) && Distinct(b) && forall r :: r in a ==> r !in b
    ensures Distinct(a + b)
  {
    forall i, j | 0 <= i < |a| && 0 <= j < |b| ensures a[i] != b[j] { assert a[i] in a && b[j] in b; }
  }

  /** Nothing that was in use has changed but the items of one list. */
  predicate Elsewhere(m: Memory, m': Memory, live: seq<Ref>, s: seq<Ref>) {
    forall r :: r in live && r !in s ==> r in m && r in m' && m'[r] == m[r]
  }

  /** The state that matters to the lists. */
  datatype Heap = Heap(mem: Memory, live: seq<Ref>, log: seq<Call>)

  /** What `jit_meta_set` does to a list with the items `s`. */
  ghost predicate SetOutcome(h: Heap, h': Heap, list: Option<Ref>, code: int, data: int, freeData: int, pooled: bool,
                             s: seq<Ref>, ok: bool, s': seq<Ref>)
    requires forall r :: r in s ==> r in h.mem
  {
    var k, m := Position(h.mem, s, code), h.mem;
    if k < |s| then
      && ok && s' == s && h'.live == h.live && s[k] in s
      && if data == m[s[k]].data then h' == h
         else h'.mem == m[s[k] := m[s[k]].(data := data, freeData := freeData)] && h'.log == h.log + Calls(m, [s[k]])
    else if ok then
      && h'.log == h.log && |s'| == |s| + 1 && s'[1..] == s && s'[0] !in h.live && s'[0].Pooled? == pooled
      && h'.live == h.live + [s'[0]] && h'.mem == m[s'[0] := Item(Type(code), data, freeData, list)]
    else
      s' == s && h' == h
  }

  /** What `jit_meta_free` does. */
  ghost predicate FreeOutcome(h: Heap, h': Heap, code: int, s: seq<Ref>, s': seq<Ref>)
    requires forall r :: r in s ==> r in h.mem
  {
    var k, m := Position(h.mem, s, code), h.mem;
    if k < |s| then
      && s' == Without(s, k) && s[k] in s && h'.log == h.log + Calls(m, [s[k]])
      && (forall r :: r in h'.live <==> r in h.live && r != s[k])
      && forall i :: 0 <= i < |s| && i != k ==>
           s[i] in m && s[i] in h'.mem && h'.mem[s[i]] == if i + 1 == k then m[s[i]].(next := m[s[k]].next) else m[s[i]]
    else s' == s && h' == h
  }

  lemma SetDue(h: Heap, h': Heap, list: Option<Ref>, code: int, data: int, freeData: int, pooled: bool, s: seq<Ref>,
               ok: bool, s': seq<Ref>)
    requires Distinct(h.live) && (forall r :: r in h.live ==> r in h.mem) && (forall r :: r in s ==> r in h.live)
    requires SetOutcome(h, h', list, code, data, freeData, pooled, s, ok, s')
      && forall r :: r in h'.live ==> r in h'.mem
    ensures var k := Position(h.mem, s, code);
      Due(h'.log, h'.mem, h'.live) == Due(h.log, h.mem, h.live)
        + if ok && (k == |s| || data != h.mem[s[k]].data) then Owes(Item(Type(code), data, freeData, None))
          else multiset{}
  {
    hide Owed, Calls, Distinct, Due;
    var k, m := Position(h.mem, s, code), h.mem;
    if k < |s| {
      assert s[k] in s;
      if data != m[s[k]].data { ReplacedDue(h.log, m, h.live, s[k], m[s[k]].(data := data, freeData := freeData)); }
    } else if ok {
      AddedDue(h.log, m, h.live, s'[0], Item(Type(code), data, freeData, list));
    }
  }

  lemma FreeDue(h: Heap, h': Heap, code: int, s: seq<Ref>, s': seq<Ref>)
    requires Distinct(h.live) && Distinct(h'.live) && (forall r :: r in h.live ==> r in h.mem)
      && (forall r :: r in s ==> r in h.live)
    requires FreeOutcome(h, h', code, s, s') && (forall r :: r in h'.live ==> r in h'.mem)
      && Elsewhere(h.mem, h'.mem, h.live, s)
    ensures Due(h'.log, h'.mem, h'.live) == Due(h.log, h.mem, h.live)
  {
    hide Owed, Calls, Due;
    var k := Position(h.mem, s, code);
    if k < |s| {
      assert s[k] in s;
      forall r | r in h'.live ensures Owes(h'.mem[r]) == Owes(h.mem[r]) {
        if r in s { var i :| 0 <= i < |s| && s[i] == r; }
      }
      GoneDue(h.log, h.mem, h.live, h'.mem, h'.live, [s[k]]);
    }
  }

  /** The meta pool of a function's builder, and the memory it is in. */
  class Pool {
    const perBlock: nat    // elems_per_block
    var elemsInLast: nat
    var blocks: nat
    var freeList: Option<Ref>
    var mem: Memory
    var ownItems: nat                // items that were allocated outside the pool so far
    ghost var free: seq<Ref>         // the pool items on the free list, first one first
    ghost var live: seq<Ref>         // the items in use
    var log: seq<Call>               // the destructor calls so far
    ghost var attached: multiset<Call>    // the destructors that were ever attached to a value

    /** `_jit_memory_pool_init`. */
    constructor (perBlock: nat)
      requires perBlock > 0
      ensures Valid() && this.perBlock == perBlock && blocks == 0 && freeList == None && live == [] && log == []
        && Balanced()
    {
      this.perBlock, elemsInLast, blocks, freeList, mem, ownItems := perBlock, perBlock, 0, None, map[], 0;
      free, live, log, attached := [], [], [], multiset{};
    }

    /** Every item ever carved is either in use or on the free list, and free items owe nothing. */
    ghost predicate Valid()
      reads this`elemsInLast, this`blocks, this`freeList, this`mem, this`ownItems, this`free, this`live
    {
      && perBlock > 0 && elemsInLast <= perBlock && (blocks == 0 ==> elemsInLast == perBlock)
      && FreeChain(mem, freeList, free) && Distinct(free) && Distinct(live)
      && (forall r :: r in live ==> r in mem && r !in free && (if r.Pooled? then InCarved(r) else r.n < ownItems))
      && (forall r :: r in free ==> r in mem && r.Pooled? && InCarved(r) && mem[r].freeData == 0)
      && (forall r :: InCarved(r) ==> r in live || r in free)
    }

    ghost predicate InCarved(r: Ref)
      reads this`elemsInLast, this`blocks
    {
      r.Pooled? && r.block < blocks && r.elem < if r.block == blocks - 1 then elemsInLast else perBlock
    }

    /** There is a slot without more memory: on the free list, or in the last block. */
    ghost predicate Spare()
      reads this`elemsInLast, this`free
    {
      free != [] || elemsInLast < perBlock
    }

    /** Every destructor that was ever attached was called once, or still has to be called once. */
    ghost predicate Balanced()
      reads this`mem, this`live, this`log, this`attached
    {
      (forall r :: r in live ==> r in mem) && attached == Due(log, mem, live)
    }

    lemma LiveFacts()
      requires Valid()
      ensures Distinct(live) && forall r :: r in live ==> r in mem && r !in free
    {
    }

    /** `_jit_memory_pool_alloc`: an item that is not in use, filled with zeros.  `granted` says whether the system has
        memory for another block. */
    method Alloc(granted: bool) returns (r: Option<Ref>)
      requires Valid()
      modifies this`elemsInLast, this`blocks, this`freeList, this`mem, this`free, this`live
      ensures Valid()
      ensures if r == None then live == old(live) && mem == old(mem)
        else r.value.Pooled? && r.value !in old(live) && live == old(live) + [r.value]
             && mem == old(mem)[r.value := ZERO]
      ensures r != None <==> old(Spare()) || granted
      ensures blocks == old(blocks) + if r != None && !old(Spare()) then 1 else 0
    {
      if freeList != None {
        var item := TakeFree();
        return Some(item);
      }
      if elemsInLast >= perBlock && !granted { return None; }
      var item := Carve();
      return Some(item);
    }

    /** The first item on the free list. */
    method TakeFree() returns (item: Ref)
      requires Valid() && freeList != None
      modifies this`freeList, this`mem, this`free, this`live
      ensures Valid() && item.Pooled? && item !in old(live) && live == old(live) + [item]
        && mem == old(mem)[item := ZERO]
    {
      item := freeList.value;
      freeList := mem[item].word.next;
      mem := mem[item := ZERO];
      ghost var rest := free[1..];
      assert free == [item] + rest;
      FreeChainSame(old(mem), mem, freeList, rest);
      hide FreeChain;
      free, live := rest, live + [item];
    }

    /** A slot of the last block, or of a new one when that is full. */
    method Carve() returns (item: Ref)
      requires Valid() && freeList == None
      modifies this`elemsInLast, this`blocks, this`mem, this`live
      ensures Valid() && item.Pooled? && item !in old(live) && live == old(live) + [item]
        && mem == old(mem)[item := ZERO]
      ensures blocks == old(blocks) + if old(elemsInLast) < perBlock then 0 else 1
    {
      if elemsInLast >= perBlock {
        blocks, elemsInLast := blocks + 1, 0;
      }
      item := Pooled(blocks - 1, elemsInLast);
      elemsInLast := elemsInLast + 1;
      mem := mem[item := ZERO];
      live := live + [item];
    }

    /** `_jit_memory_pool_dealloc`. */
    method Dealloc(item: Ref)
      requires Valid() && item in live && item.Pooled? && mem[item].freeData == 0
      modifies this`freeList, this`mem, this`free, this`live
      ensures Valid()
      ensures exists i :: 0 <= i < |old(live)| && old(live)[i] == item && live == Without(old(live), i)
      ensures mem == old(mem)[item := old(mem)[item].(word := Link(old(freeList)))]
    {
      ghost var i :| 0 <= i < |live| && live[i] == item;
      mem := mem[item := mem[item].(word := Link(freeList))];
      ChainPushed(old(mem), freeList, free, item);
      OthersStay(live, i);
      hide FreeChain, Without, Distinct;
      freeList := Some(item);
      free := [item] + free;
      live := Without(live, i);
    }

    static lemma OthersStay(s: seq<Ref>, i: nat)
      requires i < |s| && Distinct(s)
      ensures Distinct(Without(s, i)) && forall r :: r in s && r != s[i] ==> r in Without(s, i)
      ensures forall r :: r in Without(s, i) ==> r in s && r != s[i]
    {
      forall r | r in s && r != s[i] ensures r in Without(s, i) {
        var k :| 0 <= k < |s| && s[k] == r;
        assert Without(s, i)[if k < i then k else k - 1] == r;
      }
    }

    /** `_jit_memory_pool_free` with the finaliser `_jit_meta_free_one`: every item ever carved is visited once, and the
        pool is as it was when it was new. */
    method PoolFree()
      requires Valid()
      modifies this`elemsInLast, this`blocks, this`freeList, this`free, this`live, this`log
      ensures Valid() && blocks == 0 && elemsInLast == perBlock && freeList == None
      ensures live == Kind(old(live), false)
      ensures old(forall r :: r in Carved(blocks, elemsInLast, perBlock) ==> r in mem)
      ensures log == old(log) + Calls(old(mem), old(Carved(blocks, elemsInLast, perBlock)))
      ensures old(Balanced()) ==> Balanced()
    {
      AllCarved();
      TeardownOwes();
      hide Valid, Owed, Calls, Carved, Distinct;
      ghost var m, all, before := mem, Carved(blocks, elemsInLast, perBlock), live;
      FreeAll();
      if old(Balanced()) {
        assert Due(log, mem, live) == Due(old(log), m, before) by {
          Torn(old(log), Calls(m, all), Owed(m, live), Owed(m, before));
        }
      }
    }

    static lemma Torn(log: seq<Call>, calls: seq<Call>, a: multiset<Call>, b: multiset<Call>)
      requires multiset(calls) + a == b
      ensures multiset(log + calls) + a == multiset(log) + b
    {
      assert multiset(log + calls) == multiset(log) + multiset(calls);
    }

    /** The same but for the account of the destructors. */
    method FreeAll()
      requires Valid()
      modifies this`elemsInLast, this`blocks, this`freeList, this`free, this`live, this`log
      ensures Valid() && blocks == 0 && elemsInLast == perBlock && freeList == None
      ensures live == Kind(old(live), false)
      ensures old(forall r :: r in Carved(blocks, elemsInLast, perBlock) ==> r in mem)
      ensures log == old(log) + Calls(old(mem), old(Carved(blocks, elemsInLast, perBlock)))
    {
      hide Owed, Calls, Elements, Valid, Carved;
      AllCarved();
      TeardownOwes();
      Bounds();
      FreeBlocks();
      freeList := None;
      free, live := [], Kind(live, false);
      Emptied(old(mem), old(live), old(free));
    }

    /** The outer loop. */
    method FreeBlocks()
      requires elemsInLast <= perBlock && (blocks == 0 ==> elemsInLast == perBlock)
      requires forall r :: r in Carved(blocks, elemsInLast, perBlock) ==> r in mem
      modifies this`elemsInLast, this`blocks, this`log
      ensures blocks == 0 && elemsInLast == perBlock
        && log == old(log) + Calls(mem, old(Carved(blocks, elemsInLast, perBlock)))
    {
      hide Calls, Elements;
      ghost var all := Carved(blocks, elemsInLast, perBlock);
      assert log + Calls(mem, all) == old(log) + Calls(mem, all);
      while blocks > 0
        invariant elemsInLast <= perBlock && (blocks == 0 ==> elemsInLast == perBlock)
        invariant forall r :: r in Carved(blocks, elemsInLast, perBlock) ==> r in mem
        invariant log + Calls(mem, Carved(blocks, elemsInLast, perBlock)) == old(log) + Calls(mem, all)
        decreases blocks
      {
        var block := blocks - 1;
        CallsConcat(mem, Elements(block, elemsInLast), Carved(block, perBlock, perBlock));
        FreeBlock(block);
        blocks := block;
        elemsInLast := perBlock;
      }
      NoCalls();
    }

    lemma Bounds()
      requires Valid()
      ensures elemsInLast <= perBlock && perBlock > 0 && (blocks == 0 ==> elemsInLast == perBlock)
    {
    }

    lemma NoCalls()
      ensures Calls(mem, []) == []
    {
    }

    lemma Emptied(m: Memory, before: seq<Ref>, unused: seq<Ref>)
      requires mem == m && blocks == 0 && elemsInLast == perBlock > 0 && freeList == None && free == []
        && live == Kind(before, false)
      requires Distinct(before) && forall r :: r in before && !r.Pooled? ==> r in m && r.n < ownItems
      ensures Valid()
    {
      hide Kind;
      assert Distinct(live) && Distinct(free);
      assert FreeChain(mem, freeList, free);
      assert forall r :: !InCarved(r);
      assert forall r :: r in live ==> r in before && !r.Pooled?;
      hide Distinct, FreeChain, InCarved;
    }

    /** The inner loop. */
    method FreeBlock(block: nat)
      requires forall r :: r in Elements(block, elemsInLast) ==> r in mem
      modifies this`elemsInLast, this`log
      ensures elemsInLast == 0 && log == old(log) + Calls(mem, Elements(block, old(elemsInLast)))
    {
      hide Calls;
      ghost var all := Elements(block, elemsInLast);
      while elemsInLast > 0
        invariant forall r :: r in Elements(block, elemsInLast) ==> r in mem
        invariant log + Calls(mem, Elements(block, elemsInLast)) == old(log) + Calls(mem, all)
        decreases elemsInLast
      {
        ghost var s, before := Elements(block, elemsInLast), log;
        elemsInLast := elemsInLast - 1;
        FirstCall(mem, block, elemsInLast);
        FreeOne(Pooled(block, elemsInLast));
        Joined(before, Calls(mem, [Pooled(block, elemsInLast)]), Calls(mem, Elements(block, elemsInLast)));
      }
      NoCalls();
    }

    static lemma FirstCall(m: Memory, block: nat, n: nat)
      requires forall r :: r in Elements(block, n + 1) ==> r in m
      ensures Pooled(block, n) in m && (forall r :: r in Elements(block, n) ==> r in m)
      ensures Calls(m, Elements(block, n + 1)) == Calls(m, [Pooled(block, n)]) + Calls(m, Elements(block, n))
    {
      var s := Elements(block, n + 1);
      assert s == [Pooled(block, n)] + Elements(block, n) && s[0] == Pooled(block, n) && s[0] in s;
      forall r | r in Elements(block, n) ensures r in s { }
      CallsConcat(m, [Pooled(block, n)], Elements(block, n));
    }

    static lemma Joined(a: seq<Call>, b: seq<Call>, c: seq<Call>)
      ensures (a + b) + c == a + (b + c)
    {
    }

    /** `_jit_meta_free_one`. */
    method FreeOne(item: Ref)
      requires item in mem
      modifies this`log
      ensures log == old(log) + Calls(mem, [item])
    {
      if mem[item].freeData != 0 {
        log := log + [Call(mem[item].freeData, mem[item].data)];
      }
    }

    lemma AllCarved()
      requires Valid()
      ensures forall r :: r in Carved(blocks, elemsInLast, perBlock) <==> InCarved(r)
      ensures forall r :: r in Carved(blocks, elemsInLast, perBlock) ==> r in mem
    {
      forall r ensures r in Carved(blocks, elemsInLast, perBlock) <==> InCarved(r) {
        CarvedAre(blocks, elemsInLast, perBlock, r);
      }
    }

    /** The items that the teardown visits owe what the pool items in use owe. */
    lemma TeardownOwes()
      requires Valid()
      ensures Distinct(live) && forall r :: r in live && !r.Pooled? ==> r in mem && r.n < ownItems
      ensures forall r :: r in Carved(blocks, elemsInLast, perBlock) + live ==> r in mem
      ensures multiset(Calls(mem, Carved(blocks, elemsInLast, perBlock))) + Owed(mem, Kind(live, false))
        == Owed(mem, live)
    {
      var all, used := Carved(blocks, elemsInLast, perBlock), Kind(live, true);
      AllCarved();
      CarvedOnce(blocks, elemsInLast, perBlock);
      UsedAndFree();
      hide Distinct, Carved;
      CallsOwed(mem, all);
      OwedKinds(mem, live);
      OwedNothing(mem, free);
      OwedConcat(mem, used, free);
      OwedPermuted(mem, all, used + free);
    }

    lemma UsedAndFree()
      requires Valid()
      ensures Distinct(Kind(live, true) + free) && forall r :: r in Kind(live, true) + free <==> InCarved(r)
    {
      var used := Kind(live, true);
      forall i, j | 0 <= i < |used| && 0 <= j < |free| ensures used[i] != free[j] {
        assert used[i] in used && used[i] in live && free[j] in free;
      }
    }

    // ---- Lists ----

    /** A metadata list with the given items, all of them in use and of different types. */
    ghost predicate List(list: Option<Ref>, s: seq<Ref>)
      reads this`mem, this`live
    {
      && IsList(mem, list, s) && Distinct(s) && (forall r :: r in s ==> r in live && r in mem && mem[r].word.Type?)
      && forall i, j :: 0 <= i < j < |s| ==> mem[s[i]].word != mem[s[j]].word
    }

    /** `jit_meta_get`. */
    method MetaGet(list: Option<Ref>, code: int, ghost s: seq<Ref>) returns (data: int)
      requires List(list, s)
      ensures var k := Position(mem, s, code); data == if k < |s| then mem[s[k]].data else 0
    {
      var _, current, k := Search(list, code, s);
      return if current == None then 0 else mem[current.value].data;
    }

    /** The loop that looks for an item of a type. */
    method Search(list: Option<Ref>, code: int, ghost s: seq<Ref>)
      returns (prev: Option<Ref>, current: Option<Ref>, ghost k: nat)
      requires List(list, s)
      ensures k == Position(mem, s, code) && current == (if k < |s| then Some(s[k]) else None)
      ensures prev == if k == 0 then None else Some(s[k - 1])
    {
      prev, current, k := None, list, 0;
      while current != None
        invariant k <= |s| && current == (if k < |s| then Some(s[k]) else None)
          && prev == (if k == 0 then None else Some(s[k - 1]))
        invariant Position(mem, s, code) == k + Position(mem, s[k..], code)
        decreases |s| - k
      {
        assert s[k..][0] == s[k] && s[k..][1..] == s[k + 1..] && s[k] in s;
        if mem[current.value].word == Type(code) { return; }
        ListAt(mem, list, s, k + 1);
        prev, current := current, mem[current.value].next;
        k := k + 1;
      }
    }

    /** A new item: of the pool, or of its own. */
    method NewItem(pooled: bool, granted: bool) returns (r: Option<Ref>)
      requires Valid()
      modifies this`elemsInLast, this`blocks, this`freeList, this`mem, this`free, this`live, this`ownItems
      ensures Valid()
      ensures if r == None then live == old(live) && mem == old(mem)
        else r.value.Pooled? == pooled && r.value !in old(live) && live == old(live) + [r.value]
             && mem == old(mem)[r.value := ZERO]
      ensures r != None <==> granted || (pooled && old(Spare()))
    {
      if pooled {
        r := Alloc(granted);
      } else {
        if !granted { return None; }
        var item := Own(ownItems);
        ownItems := ownItems + 1;
        mem := mem[item := ZERO];
        live := live + [item];
        FreeChainSame(old(mem), mem, freeList, free);
        return Some(item);
      }
    }

    /** Write to an item in use. */
    method Write(item: Ref, value: Item)
      requires Valid() && item in live && item in mem
      modifies this`mem
      ensures Valid() && mem == old(mem)[item := value]
    {
      mem := mem[item := value];
      FreeChainSame(old(mem), mem, freeList, free);
    }

    ghost function Now(): Heap
      reads this
    {
      Heap(mem, live, log)
    }

    /** Give an item in a list another value: the destructor of the old one is called. */
    method Replace(list: Option<Ref>, data: int, freeData: int, ghost s: seq<Ref>, item: Ref)
      requires Valid() && List(list, s) && item in s
      modifies this`mem, this`log
      ensures Valid() && List(list, s) && Elsewhere(old(mem), mem, live, s)
      ensures item in old(mem) && mem == old(mem)[item := old(mem)[item].(data := data, freeData := freeData)]
      ensures log == old(log) + Calls(old(mem), [item])
    {
      LiveFacts();
      hide Owed, Calls, FreeChain, Valid;
      FreeOne(item);
      Write(item, mem[item].(data := data, freeData := freeData));
      IsListSame(old(mem), mem, list, s);
    }

    /** Put a new item in front of a list. */
    method Prepend(list: Option<Ref>, code: int, data: int, freeData: int, pooled: bool, granted: bool,
                   ghost s: seq<Ref>)
      returns (added: Option<Ref>)
      requires Valid() && List(list, s) && Position(mem, s, code) == |s|
      modifies this`elemsInLast, this`blocks, this`freeList, this`mem, this`free, this`live, this`ownItems
      ensures Valid() && Elsewhere(old(mem), mem, old(live), s)
      ensures added == None ==> live == old(live) && mem == old(mem)
      ensures added != None ==>
        added.value.Pooled? == pooled && added.value !in old(live) && live == old(live) + [added.value]
      ensures added != None ==>
        mem == old(mem)[added.value := Item(Type(code), data, freeData, list)] && List(added, [added.value] + s)
      ensures added != None <==> granted || (pooled && old(Spare()))
    {
      LiveFacts();
      hide FreeChain, Valid, IsList, Spare;
      added := NewItem(pooled, granted);
      if added != None {
        var item := added.value;
        Write(item, Item(Type(code), data, freeData, list));
        ghost var more := [item] + s;
        assert more[1..] == s;
        IsListSame(old(mem), mem, list, s);
      }
    }

    /** `jit_meta_set`, but for the account of the destructors. */
    method SetItem(list: Option<Ref>, code: int, data: int, freeData: int, pooled: bool, granted: bool,
                   ghost s: seq<Ref>)
      returns (ok: bool, list': Option<Ref>, ghost s': seq<Ref>)
      requires Valid() && List(list, s)
      modifies this`elemsInLast, this`blocks, this`freeList, this`mem, this`free, this`live, this`ownItems, this`log
      ensures Valid() && List(list', s') && Elsewhere(old(mem), mem, old(live), s)
      ensures SetOutcome(old(Now()), Now(), list, code, data, freeData, pooled, s, ok, s')
      ensures ok <==> Position(old(mem), s, code) < |s| || granted || (pooled && old(Spare()))
    {
      LiveFacts();
      hide Owed, Calls, FreeChain, Valid, IsList, Spare;
      var _, current, k := Search(list, code, s);
      if current != None {
        assert current.value in s;
        if data != mem[current.value].data {
          Replace(list, data, freeData, s, current.value);
        }
        return true, list, s;
      }
      var added := Prepend(list, code, data, freeData, pooled, granted, s);
      if added == None {
        return false, list, s;
      }
      return true, added, [added.value] + s;
    }

    /** `jit_meta_set`.  The destructor is attached, except when the value is unchanged: then the old one stays. */
    method MetaSet(list: Option<Ref>, code: int, data: int, freeData: int, pooled: bool, granted: bool,
                   ghost s: seq<Ref>)
      returns (ok: bool, list': Option<Ref>, ghost s': seq<Ref>)
      requires Valid() && List(list, s)
      modifies this
      ensures Valid() && List(list', s') && Elsewhere(old(mem), mem, old(live), s)
      ensures SetOutcome(old(Now()), Now(), list, code, data, freeData, pooled, s, ok, s')
      ensures ok <==> Position(old(mem), s, code) < |s| || granted || (pooled && old(Spare()))
      ensures var k, m := Position(old(mem), s, code), old(mem);
        var replaced := ok && (k == |s| || data != m[s[k]].data);
        attached == old(attached) + if replaced then Owes(Item(Type(code), data, freeData, None)) else multiset{}
      ensures old(Balanced()) ==> Balanced()
    {
      LiveFacts();
      hide Valid, Owed, Calls, IsList, Elsewhere, Spare;
      ghost var h, k := Now(), Position(mem, s, code);
      assert k < |s| ==> s[k] in s;
      ok, list', s' := SetItem(list, code, data, freeData, pooled, granted, s);
      LiveFacts();
      if ok && (k == |s| || data != h.mem[s[k]].data) {
        attached := attached + Owes(Item(Type(code), data, freeData, None));
      }
      if old(Balanced()) { SetDue(h, Now(), list, code, data, freeData, pooled, s, ok, s'); }
    }

    /** Give an item back: to the pool, or to the system. */
    method Release(item: Ref)
      requires Valid() && item in live && item in mem && mem[item].freeData == 0
      modifies this`freeList, this`mem, this`free, this`live
      ensures Valid()
      ensures exists i :: 0 <= i < |old(live)| && old(live)[i] == item && live == Without(old(live), i)
      ensures item in mem && mem == old(mem)[item := mem[item]]
      ensures forall r :: r in live <==> r in old(live) && r != item
    {
      if item.Pooled? {
        Dealloc(item);
      } else {
        ghost var i :| 0 <= i < |live| && live[i] == item;
        OthersStay(live, i);
        live := Without(live, i);
        assert mem == mem[item := mem[item]];
      }
      ghost var i :| 0 <= i < |old(live)| && old(live)[i] == item && live == Without(old(live), i);
      OthersStay(old(live), i);
    }

    /** Call the destructor of an item, once. */
    method Destroy(item: Ref)
      requires Valid() && item in live && item in mem
      modifies this`log, this`mem
      ensures Valid() && log == old(log) + Calls(old(mem), [item])
        && mem == old(mem)[item := old(mem)[item].(freeData := 0)]
    {
      if mem[item].freeData != 0 {
        log := log + [Call(mem[item].freeData, mem[item].data)];
        Write(item, mem[item].(freeData := 0));
      } else {
        assert mem[item].(freeData := 0) == mem[item];
        assert mem == mem[item := mem[item]];
      }
    }

    /** `jit_meta_free`. */
    method MetaFree(list: Option<Ref>, code: int, ghost s: seq<Ref>) returns (list': Option<Ref>, ghost s': seq<Ref>)
      requires Valid() && List(list, s)
      modifies this`freeList, this`mem, this`free, this`live, this`log
      ensures Valid() && List(list', s') && Elsewhere(old(mem), mem, old(live), s)
      ensures FreeOutcome(old(Now()), Now(), code, s, s') && (old(Balanced()) ==> Balanced())
    {
      LiveFacts();
      assert forall r :: r in s ==> r in live;
      hide Valid, Owed, Calls, IsList, FreeOutcome, Distinct, Elsewhere, Due, List;
      ghost var h, balanced := Now(), Balanced();
      list', s' := RemoveItem(list, code, s);
      if balanced { StillBalanced(h, code, s, s'); }
    }

    lemma StillBalanced(h: Heap, code: int, s: seq<Ref>, s': seq<Ref>)
      requires Valid() && Distinct(h.live) && (forall r :: r in h.live ==> r in h.mem)
        && (forall r :: r in s ==> r in h.live)
      requires attached == Due(h.log, h.mem, h.live)
      requires FreeOutcome(h, Now(), code, s, s') && Elsewhere(h.mem, mem, h.live, s)
      ensures Balanced()
    {
      hide FreeOutcome, Due, Elsewhere;
      LiveFacts();
      FreeDue(h, Now(), code, s, s');
    }

    /** The same but for the account of the destructors. */
    method RemoveItem(list: Option<Ref>, code: int, ghost s: seq<Ref>) returns (list': Option<Ref>, ghost s': seq<Ref>)
      requires Valid() && List(list, s)
      modifies this`freeList, this`mem, this`free, this`live, this`log
      ensures Valid() && List(list', s') && Elsewhere(old(mem), mem, old(live), s)
      ensures FreeOutcome(old(Now()), Now(), code, s, s')
    {
      LiveFacts();
      hide Owed, Calls, FreeChain, Valid;
      var prev, current, k := Search(list, code, s);
      if current == None {
        return list, s;
      }
      var item := current.value;
      assert item == s[k] && item in s && (k > 0 ==> s[k - 1] in s);
      hide IsList, Position, Without, Distinct, Elsewhere, FreeOutcome;
      ghost var m, before := mem, live;
      if k > 0 { TwoItems(s, k); }
      list' := TakeOut(list, prev, item);
      s' := Without(s, k);
      ListAt(m, list, s, k);
      Removed(m, mem, list, s, k, before);
      StillList(m, s, k, list');
      RemovedOutcome(Heap(m, before, old(log)), Now(), code, s, k);
    }

    /** Call the destructor of an item, unlink the item from the one before it and give it back. */
    method TakeOut(list: Option<Ref>, prev: Option<Ref>, item: Ref) returns (list': Option<Ref>)
      requires Valid() && item in live && item in mem && prev != Some(item)
        && (prev != None ==> prev.value in live && prev.value in mem)
      modifies this`freeList, this`mem, this`free, this`live, this`log
      ensures Valid() && log == old(log) + Calls(old(mem), [item])
        && (forall r :: r in live <==> r in old(live) && r != item)
      ensures list' == (if prev == None then old(mem)[item].next else list) && item in mem
      ensures forall r :: r in old(mem) && r != item && prev != Some(r) ==> r in mem && mem[r] == old(mem)[r]
      ensures prev != None ==>
        prev.value in mem && mem[prev.value] == old(mem)[prev.value].(next := old(mem)[item].next)
    {
      hide Owed, Calls, FreeChain, Valid, Without;
      Destroy(item);
      var next := mem[item].next;
      list' := list;
      if prev != None {
        Write(prev.value, mem[prev.value].(next := next));
      } else {
        list' := next;
      }
      Release(item);
    }

    static lemma TwoItems(s: seq<Ref>, k: nat)
      requires Distinct(s) && 0 < k < |s|
      ensures s[k - 1] != s[k]
    {
    }

    static lemma RemovedOutcome(h: Heap, h': Heap, code: int, s: seq<Ref>, k: nat)
      requires (forall r :: r in s ==> r in h.mem) && k == Position(h.mem, s, code) < |s|
        && h'.log == h.log + Calls(h.mem, [s[k]])
      requires forall r :: r in h'.live <==> r in h.live && r != s[k]
      requires forall i :: 0 <= i < |s| && i != k ==>
        s[i] in h.mem && s[i] in h'.mem && h'.mem[s[i]] == if i + 1 == k then h.mem[s[i]].(next := h.mem[s[k]].next)
          else h.mem[s[i]]
      ensures FreeOutcome(h, h', code, s, Without(s, k))
    {
      hide Calls, Position;
      assert s[k] in s;
    }

    /** What became of the memory. */
    static lemma Removed(m: Memory, m': Memory, list: Option<Ref>, s: seq<Ref>, k: nat, live: seq<Ref>)
      requires IsList(m, list, s) && k < |s| && Distinct(s) && (forall r :: r in live ==> r in m)
        && forall r :: r in s ==> r in m && r in live
      requires s[k] in m' && (k > 0 ==> s[k - 1] in m')
      requires forall r :: r in m && r != s[k] && (k > 0 ==> r != s[k - 1]) ==> r in m' && m'[r] == m[r]
      requires k > 0 ==> m'[s[k - 1]] == m[s[k - 1]].(next := m[s[k]].next)
      ensures forall i :: 0 <= i < |s| && i != k ==>
        s[i] in m && s[i] in m' && m'[s[i]] == if i + 1 == k then m[s[i]].(next := m[s[k]].next) else m[s[i]]
      ensures IsList(m', if k == 0 then m[s[k]].next else list, Without(s, k)) && Elsewhere(m, m', live, s)
    {
      assert forall i :: 0 <= i < |s| ==> s[i] in s;
      Unlinked(m, m', list, s, k);
    }

    lemma StillList(m: Memory, s: seq<Ref>, k: nat, list: Option<Ref>)
      requires k < |s| && Distinct(s) && IsList(mem, list, Without(s, k))
      requires forall i :: 0 <= i < |s| ==> s[i] in m && m[s[i]].word.Type?
      requires forall i, j :: 0 <= i < j < |s| ==> m[s[i]].word != m[s[j]].word
      requires forall i :: 0 <= i < |s| && i != k ==> s[i] in live && s[i] in mem && mem[s[i]].word == m[s[i]].word
      ensures List(list, Without(s, k))
    {
      var t := Without(s, k);
      forall r | r in t ensures r in live && r in mem && mem[r].word.Type? {
        var i :| 0 <= i < |t| && t[i] == r;
      }
    }

    /** `jit_meta_destroy`: the destructor of every item is called once, in list order, and all items are given back. */
    method MetaDestroy(list: Option<Ref>, ghost s: seq<Ref>)
      requires Valid() && List(list, s)
      modifies this`freeList, this`mem, this`free, this`live, this`log
      ensures Valid() && Elsewhere(old(mem), mem, old(live), s) && (old(Balanced()) ==> Balanced())
      ensures log == old(log) + Calls(old(mem), s)
      ensures forall r :: r in live <==> r in old(live) && r !in s
    {
      LiveFacts();
      RemoveItems(list, s);
      hide Valid, Owed, Calls, IsList, Distinct;
      LiveFacts();
      if old(Balanced()) { GoneDue(old(log), old(mem), old(live), mem, live, s); }
    }

    /** Call the destructor of an item and give the item back. */
    method Discard(item: Ref)
      requires Valid() && item in live && item in mem
      modifies this`freeList, this`mem, this`free, this`live, this`log
      ensures Valid() && log == old(log) + Calls(old(mem), [item])
        && (forall r :: r in live <==> r in old(live) && r != item)
      ensures forall r :: r in old(mem) && r != item ==> r in mem && mem[r] == old(mem)[r]
    {
      hide Owed, Calls, FreeChain, Valid, Without;
      Destroy(item);
      Release(item);
    }

    method RemoveItems(list: Option<Ref>, ghost s: seq<Ref>)
      requires Valid() && List(list, s)
      modifies this`freeList, this`mem, this`free, this`live, this`log
      ensures Valid() && Elsewhere(old(mem), mem, old(live), s)
      ensures log == old(log) + Calls(old(mem), s)
      ensures forall r :: r in live <==> r in old(live) && r !in s
    {
      hide Owed, Calls, FreeChain, Valid, IsList, Distinct;
      var current := list;
      ghost var k := 0;
      assert s[..0] == [];
      NoCalls();
      LiveFacts();
      ListAt(mem, list, s, 0);
      while current != None
        invariant Valid() && k <= |s| && current == (if k < |s| then Some(s[k]) else None)
        invariant log == old(log) + Calls(old(mem), s[..k])
        invariant forall r :: r in live <==> r in old(live) && r !in s[..k]
        invariant forall r :: r in live ==> r in mem && mem[r] == old(mem)[r]
        decreases |s| - k
      {
        assert s[k] in s && s[..k + 1] == s[..k] + [s[k]];
        FirstTime(s, k);
        CallsSame(old(mem), mem, s[k]);
        var next := mem[current.value].next;
        Discard(current.value);
        CallsConcat(old(mem), s[..k], [s[k]]);
        ListAt(old(mem), list, s, k + 1);
        current := next;
        k := k + 1;
      }
      assert s[..k] == s;
    }

    static lemma FirstTime(s: seq<Ref>, k: nat)
      requires Distinct(s) && k < |s|
      ensures s[k] !in s[..k]
    {
    }
  }
}
