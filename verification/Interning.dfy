/** The arena and the table of interned strings. */
module Interning {
  import opened Hashing
  import BitFieldLayout

  const CHUNK_SIZE: nat := 1024 * 1024
  const HASH_SIZE: nat := 4096

  // A chunk number, oldest first, and an offset into its data.
  datatype Ptr = Ptr(chunk: nat, off: nat)
  datatype Chunk = Chunk(size: nat, used: nat)
  datatype Block = Block(at: Ptr, len: nat)
  datatype Entry = Entry(str: Ptr, len: nat)

  type Memory = map<Ptr, char>

  function Plus(p: Ptr, k: nat): Ptr { Ptr(p.chunk, p.off + k) }

  // Fresh memory is zero.
  function CharAt(m: Memory, p: Ptr): char { if p in m then m[p] else '\0' }

  function TextAt(m: Memory, p: Ptr, len: nat): (s: string)
    ensures |s| == len
  {
    seq(len, i requires 0 <= i < len => CharAt(m, Plus(p, i)))
  }

  function Slot(s: string): (h: nat)
    ensures h < HASH_SIZE
  {
    Fnv(s, FNV_BASIS) % HASH_SIZE
  }

  predicate Disjoint(a: Block, b: Block) {
    a.at.chunk != b.at.chunk || a.at.off + a.len <= b.at.off || b.at.off + b.len <= a.at.off
  }

  // Sizes are rounded up to a multiple of eight.
  function Rounded(size: nat): int { BitFieldLayout.AlignTo(size, 8) }

  lemma RoundedUp(size: nat)
    ensures size <= Rounded(size) < size + 8
  {
    assert Words.Pow2(3) == 8;
    assert BitFieldLayout.IsPow2(8);
    BitFieldLayout.AlignToRoundUp(size, 8);
  }

  // Every block lies in the used part of its chunk; no two overlap.
  ghost predicate BlocksOk(chunks: seq<Chunk>, blocks: seq<Block>) {
    && (forall c :: 0 <= c < |chunks| ==> chunks[c].used <= chunks[c].size)
    && (forall i :: 0 <= i < |blocks| ==> InChunk(chunks, blocks[i]))
    && (forall i, j :: 0 <= i < j < |blocks| ==> Disjoint(blocks[i], blocks[j]))
  }

  predicate InChunk(chunks: seq<Chunk>, b: Block) {
    b.at.chunk < |chunks| && b.at.off + b.len <= chunks[b.at.chunk].used
  }

  // interned[s] is the number of the block that holds s.
  ghost predicate TextsOk(mem: Memory, blocks: seq<Block>, interned: map<string, nat>) {
    && (forall s :: s in interned ==> TextOk(mem, blocks, s, interned[s]))
    && (forall s, t :: s in interned && t in interned && s != t ==> interned[s] != interned[t])
  }

  ghost predicate TextOk(mem: Memory, blocks: seq<Block>, s: string, k: nat) {
    k < |blocks| && blocks[k].len > |s| && TextAt(mem, blocks[k].at, |s|) == s && CharAt(mem, Plus(blocks[k].at, |s|)) == '\0'
  }

  // Entry e stands for the interned string s.
  predicate Names(e: Entry, s: string, blocks: seq<Block>, interned: map<string, nat>) {
    s in interned && interned[s] < |blocks| && e == Entry(blocks[interned[s]].at, |s|)
  }

  // Chain h lists the strings keys, all with that hash.
  ghost predicate ChainOk(chain: seq<Entry>, h: nat, keys: seq<string>, blocks: seq<Block>, interned: map<string, nat>) {
    |chain| == |keys| && forall i :: 0 <= i < |chain| ==> Names(chain[i], keys[i], blocks, interned) && Slot(keys[i]) == h
  }

  // Every interned string is listed in the chain of its hash.
  ghost predicate TableOk(strings: seq<seq<Entry>>, keys: seq<seq<string>>, blocks: seq<Block>, interned: map<string, nat>) {
    && |strings| == |keys| == HASH_SIZE
    && (forall h :: 0 <= h < HASH_SIZE ==> ChainOk(strings[h], h, keys[h], blocks, interned))
    && (forall s :: s in interned ==> s in keys[Slot(s)])
  }

  // ----- one step -----

  // A block carved out behind the used part of the last chunk.
  lemma BlockAdded(chunks: seq<Chunk>, blocks: seq<Block>, size: nat, n: nat)
    requires BlocksOk(chunks, blocks) && size <= n && chunks != []
    requires var c := chunks[|chunks| - 1]; c.used + n <= c.size
    ensures var last := |chunks| - 1;
      var c := chunks[last];
      BlocksOk(chunks[last := c.(used := c.used + n)], blocks + [Block(Ptr(last, c.used), size)])
  {
    var last := |chunks| - 1;
    var c := chunks[last];
    var chunks1 := chunks[last := c.(used := c.used + n)];
    forall i | 0 <= i < |blocks|
      ensures InChunk(chunks1, blocks[i]) && Disjoint(blocks[i], Block(Ptr(last, c.used), size))
    {
      assert InChunk(chunks, blocks[i]);
    }
  }

  lemma ChunkAdded(chunks: seq<Chunk>, blocks: seq<Block>, size: nat)
    requires BlocksOk(chunks, blocks)
    ensures BlocksOk(chunks + [Chunk(size, 0)], blocks)
  {
    var chunks1 := chunks + [Chunk(size, 0)];
    forall i | 0 <= i < |blocks|
      ensures InChunk(chunks1, blocks[i])
    {
      assert InChunk(chunks, blocks[i]);
    }
  }

  // Writing inside one block leaves the texts in the others alone.
  lemma OtherTexts(mem: Memory, mem1: Memory, blocks: seq<Block>, interned: map<string, nat>, b: Block)
    requires TextsOk(mem, blocks, interned) && forall i :: 0 <= i < |blocks| ==> Disjoint(blocks[i], b)
    requires forall p: Ptr :: (p.chunk != b.at.chunk || p.off < b.at.off || p.off >= b.at.off + b.len) ==> CharAt(mem1, p) == CharAt(mem, p)
    ensures TextsOk(mem1, blocks + [b], interned)
  {
    var blocks1 := blocks + [b];
    forall s | s in interned
      ensures TextOk(mem1, blocks1, s, interned[s])
    {
      var k := interned[s];
      assert TextOk(mem, blocks, s, k) && Disjoint(blocks[k], b);
      forall i | 0 <= i <= |s|
        ensures CharAt(mem1, Plus(blocks[k].at, i)) == CharAt(mem, Plus(blocks[k].at, i))
      {
      }
    }
  }

  lemma TextAdded(mem: Memory, blocks: seq<Block>, interned: map<string, nat>, s: string, k: nat)
    requires TextsOk(mem, blocks, interned) && s !in interned && TextOk(mem, blocks, s, k)
    requires forall t :: t in interned ==> interned[t] != k
    ensures TextsOk(mem, blocks, interned[s := k])
  {
  }

  lemma NamesKept(e: Entry, t: string, blocks: seq<Block>, interned: map<string, nat>, b: Block, s: string)
    requires Names(e, t, blocks, interned) && s !in interned
    ensures Names(e, t, blocks + [b], interned[s := |blocks|]) && Names(e, t, blocks + [b], interned)
  {
  }

  lemma ChainKept(chain: seq<Entry>, h: nat, keys: seq<string>, blocks: seq<Block>, interned: map<string, nat>, b: Block, s: string)
    requires ChainOk(chain, h, keys, blocks, interned) && s !in interned
    ensures ChainOk(chain, h, keys, blocks + [b], interned[s := |blocks|])
    ensures Slot(s) == h ==> ChainOk([Entry(b.at, |s|)] + chain, h, [s] + keys, blocks + [b], interned[s := |blocks|])
  {
    hide Slot, Names;
    forall i | 0 <= i < |chain|
      ensures Names(chain[i], keys[i], blocks + [b], interned[s := |blocks|])
    {
      NamesKept(chain[i], keys[i], blocks, interned, b, s);
    }
    NamesNew(blocks, interned, b, s);
  }

  lemma NamesNew(blocks: seq<Block>, interned: map<string, nat>, b: Block, s: string)
    ensures Names(Entry(b.at, |s|), s, blocks + [b], interned[s := |blocks|])
  {
  }

  lemma TableAdded(strings: seq<seq<Entry>>, keys: seq<seq<string>>, blocks: seq<Block>, interned: map<string, nat>, b: Block, s: string)
    requires TableOk(strings, keys, blocks, interned) && s !in interned
    ensures TableOk(strings[Slot(s) := [Entry(b.at, |s|)] + strings[Slot(s)]], keys[Slot(s) := [s] + keys[Slot(s)]],
                    blocks + [b], interned[s := |blocks|])
  {
    hide Slot, ChainOk;
    var g := Slot(s);
    var strings1, keys1 := strings[g := [Entry(b.at, |s|)] + strings[g]], keys[g := [s] + keys[g]];
    forall h | 0 <= h < HASH_SIZE
      ensures ChainOk(strings1[h], h, keys1[h], blocks + [b], interned[s := |blocks|])
    {
      ChainKept(strings[h], h, keys[h], blocks, interned, b, s);
    }
    forall t | t in interned || t == s
      ensures t in keys1[Slot(t)]
    {
      if t != s {
        assert t in keys[Slot(t)];
      }
    }
  }

  // Another block, for something else.
  lemma TableMoreBlocks(strings: seq<seq<Entry>>, keys: seq<seq<string>>, blocks: seq<Block>, interned: map<string, nat>, b: Block)
    requires TableOk(strings, keys, blocks, interned)
    ensures TableOk(strings, keys, blocks + [b], interned)
  {
    hide Slot;
    forall h | 0 <= h < HASH_SIZE
      ensures ChainOk(strings[h], h, keys[h], blocks + [b], interned)
    {
      assert ChainOk(strings[h], h, keys[h], blocks, interned);
    }
  }

  // ----- the allocator and the table -----

  class Pool {
    var chunks: seq<Chunk>
    var mem: Memory
    const strings: array<seq<Entry>>
    ghost var blocks: seq<Block>            // every block handed out so far
    ghost var interned: map<string, nat>
    ghost var keys: seq<seq<string>>        // the strings of each chain

    ghost predicate Valid()
      reads this, strings
    {
      && strings.Length == HASH_SIZE
      && BlocksOk(chunks, blocks) && TextsOk(mem, blocks, interned) && TableOk(strings[..], keys, blocks, interned)
      && (forall p :: p in mem ==> p.chunk < |chunks| && p.off < chunks[p.chunk].used)
    }

    // The object that stands for s.
    ghost function ObjectOf(s: string): Ptr
      requires Valid() && s in interned
      reads this, strings
    {
      TextKept(mem, blocks, interned, s);
      blocks[interned[s]].at
    }

    constructor ()
      ensures Valid() && blocks == [] && interned == map[] && fresh(strings)
    {
      chunks, mem, blocks, interned, keys := [], map[], [], map[], seq(HASH_SIZE, _ => []);
      strings := new seq<Entry>[HASH_SIZE](_ => []);
    }

    // arena_alloc: zeroed memory that overlaps nothing handed out before.
    method ArenaAlloc(size: nat) returns (p: Ptr)
      requires Valid()
      modifies this`chunks, this`blocks
      ensures Valid() && blocks == old(blocks) + [Block(p, size)]
      ensures forall i :: 0 <= i < |old(blocks)| ==> Disjoint(old(blocks)[i], Block(p, size))
      ensures forall k :: 0 <= k < size ==> CharAt(mem, Plus(p, k)) == '\0'
    {
      hide BlocksOk, TextsOk, TableOk;
      RoundedUp(size);
      var n: nat := Rounded(size);
      if chunks == [] || chunks[|chunks| - 1].used + n > chunks[|chunks| - 1].size {
        var chunkSize := if n > CHUNK_SIZE then n else CHUNK_SIZE;
        ChunkAdded(chunks, blocks, chunkSize);
        chunks := chunks + [Chunk(chunkSize, 0)];
      }
      var last := |chunks| - 1;
      var c := chunks[last];
      p := Ptr(last, c.used);
      BlockAdded(chunks, blocks, size, n);
      NewDisjoint(chunks[last := c.(used := c.used + n)], blocks, Block(p, size));
      NoTextLost(mem, blocks, interned, Block(p, size));
      TableMoreBlocks(strings[..], keys, blocks, interned, Block(p, size));
      chunks := chunks[last := c.(used := c.used + n)];
      blocks := blocks + [Block(p, size)];
    }

    // The entry of s in a chain, comparing lengths and bytes.
    method FindEntry(chain: seq<Entry>, s: string) returns (i: int)
      ensures i >= 0 ==> i < |chain| && chain[i].len == |s| && TextAt(mem, chain[i].str, |s|) == s
      ensures i < 0 ==> forall j :: 0 <= j < |chain| ==> chain[j].len != |s| || TextAt(mem, chain[j].str, |s|) != s
    {
      for k := 0 to |chain|
        invariant forall j :: 0 <= j < k ==> chain[j].len != |s| || TextAt(mem, chain[j].str, |s|) != s
      {
        if chain[k].len == |s| && TextAt(mem, chain[k].str, |s|) == s {
          return k;
        }
      }
      i := -1;
    }

    // str_intern
    method Intern(s: string) returns (p: Ptr)
      requires Valid()
      modifies this, strings
      ensures Valid() && s in interned && p == ObjectOf(s)
      ensures interned == old(interned)[s := interned[s]] && (s in old(interned) ==> interned == old(interned))
      ensures old(blocks) <= blocks
    {
      hide BlocksOk, TextsOk, TableOk, ChainOk;
      var h := Slot(s);
      ChainOf(strings[..], keys, blocks, interned, h, s);
      var found := FindEntry(strings[h], s);
      Lookup(strings[h], h, keys[h], mem, blocks, interned, s, found);
      if found >= 0 {
        return strings[h][found].str;
      }
      var header := ArenaAlloc(24);
      ghost var mid, before := blocks, mem;
      p := ArenaAlloc(|s| + 1);
      ghost var b := Block(p, |s| + 1);
      LastInChunk(chunks, blocks);
      CopyString(s, p);
      OtherTexts(before, mem, mid, interned, b);
      NumbersBound(before, mid, interned);
      TextAdded(mem, mid + [b], interned, s, |mid|);
      ghost var table := strings[..];
      TableAdded(table, keys, mid, interned, b, s);
      strings[h] := [Entry(p, |s|)] + strings[h];
      assert strings[..] == table[h := [Entry(p, |s|)] + table[h]];
      interned, keys := interned[s := |mid|], keys[h := [s] + keys[h]];
    }

    // Copy the bytes and the terminating zero.
    method CopyString(s: string, p: Ptr)
      requires p.chunk < |chunks| && p.off + |s| + 1 <= chunks[p.chunk].used
      requires forall q :: q in mem ==> q.chunk < |chunks| && q.off < chunks[q.chunk].used
      modifies this`mem
      ensures TextAt(mem, p, |s|) == s && CharAt(mem, Plus(p, |s|)) == '\0'
      ensures forall q: Ptr :: (q.chunk != p.chunk || q.off < p.off || q.off > p.off + |s|) ==> CharAt(mem, q) == CharAt(old(mem), q)
      ensures forall q :: q in mem ==> q.chunk < |chunks| && q.off < chunks[q.chunk].used
    {
      for i := 0 to |s|
        invariant forall j :: 0 <= j < i ==> CharAt(mem, Plus(p, j)) == s[j]
        invariant forall q: Ptr :: (q.chunk != p.chunk || q.off < p.off || q.off >= p.off + i) ==> CharAt(mem, q) == CharAt(old(mem), q)
        invariant forall q :: q in mem ==> q.chunk < |chunks| && q.off < chunks[q.chunk].used
      {
        mem := mem[Plus(p, i) := s[i]];
      }
      mem := mem[Plus(p, |s|) := '\0'];
    }
  }

  lemma LastInChunk(chunks: seq<Chunk>, blocks: seq<Block>)
    requires BlocksOk(chunks, blocks) && blocks != []
    ensures InChunk(chunks, blocks[|blocks| - 1])
  {
  }

  lemma NumbersBound(mem: Memory, blocks: seq<Block>, interned: map<string, nat>)
    requires TextsOk(mem, blocks, interned)
    ensures forall s :: s in interned ==> interned[s] < |blocks|
  {
    forall s | s in interned
      ensures interned[s] < |blocks|
    {
      assert TextOk(mem, blocks, s, interned[s]);
    }
  }

  lemma NewDisjoint(chunks: seq<Chunk>, blocks: seq<Block>, b: Block)
    requires BlocksOk(chunks, blocks + [b])
    ensures forall i :: 0 <= i < |blocks| ==> Disjoint(blocks[i], b)
  {
    var all := blocks + [b];
    forall i | 0 <= i < |blocks|
      ensures Disjoint(blocks[i], b)
    {
      assert Disjoint(all[i], all[|blocks|]);
    }
  }

  lemma NoTextLost(mem: Memory, blocks: seq<Block>, interned: map<string, nat>, b: Block)
    requires TextsOk(mem, blocks, interned)
    ensures TextsOk(mem, blocks + [b], interned)
  {
    var blocks1 := blocks + [b];
    forall s | s in interned
      ensures TextOk(mem, blocks1, s, interned[s])
    {
      assert TextOk(mem, blocks, s, interned[s]);
    }
  }

  lemma ChainOf(strings: seq<seq<Entry>>, keys: seq<seq<string>>, blocks: seq<Block>, interned: map<string, nat>, h: nat, s: string)
    requires TableOk(strings, keys, blocks, interned) && h == Slot(s)
    ensures ChainOk(strings[h], h, keys[h], blocks, interned) && (s in interned ==> s in keys[h]) && |strings| == |keys| == HASH_SIZE
  {
  }

  // Two results are the same object exactly if the strings are equal.
  lemma ObjectsDiffer(chunks: seq<Chunk>, mem: Memory, blocks: seq<Block>, interned: map<string, nat>, s: string, t: string)
    requires BlocksOk(chunks, blocks) && TextsOk(mem, blocks, interned) && s in interned && t in interned
    ensures interned[s] < |blocks| && interned[t] < |blocks|
    ensures blocks[interned[s]].at == blocks[interned[t]].at <==> s == t
  {
    assert TextOk(mem, blocks, s, interned[s]) && TextOk(mem, blocks, t, interned[t]);
    if s != t {
      var i, j := interned[s], interned[t];
      assert Disjoint(blocks[if i < j then i else j], blocks[if i < j then j else i]);
    }
  }

  // A whole run: results are the same object exactly if the strings are equal, and every result
  // still reads as its string at the end.
  method InternAll(ss: seq<string>) returns (pool: Pool, ptrs: seq<Ptr>)
    ensures fresh(pool) && pool.Valid() && |ptrs| == |ss|
    ensures forall i, j :: 0 <= i < |ss| && 0 <= j < |ss| ==> (ptrs[i] == ptrs[j] <==> ss[i] == ss[j])
    ensures forall i :: 0 <= i < |ss| ==> TextAt(pool.mem, ptrs[i], |ss[i]|) == ss[i]
  {
    hide BlocksOk, TextsOk, TableOk;
    pool := new Pool();
    ptrs := [];
    for n := 0 to |ss|
      invariant fresh(pool) && fresh(pool.strings) && pool.Valid() && |ptrs| == n
      invariant forall i :: 0 <= i < n ==> ss[i] in pool.interned && ptrs[i] == pool.ObjectOf(ss[i])
    {
      NumbersBound(pool.mem, pool.blocks, pool.interned);
      var p := pool.Intern(ss[n]);
      ptrs := ptrs + [p];
    }
    forall i, j | 0 <= i < |ss| && 0 <= j < |ss|
      ensures ptrs[i] == ptrs[j] <==> ss[i] == ss[j]
    {
      ObjectsDiffer(pool.chunks, pool.mem, pool.blocks, pool.interned, ss[i], ss[j]);
    }
    forall i | 0 <= i < |ss|
      ensures TextAt(pool.mem, ptrs[i], |ss[i]|) == ss[i]
    {
      TextKept(pool.mem, pool.blocks, pool.interned, ss[i]);
    }
  }

  lemma TextKept(mem: Memory, blocks: seq<Block>, interned: map<string, nat>, s: string)
    requires TextsOk(mem, blocks, interned) && s in interned
    ensures interned[s] < |blocks| && TextAt(mem, blocks[interned[s]].at, |s|) == s
  {
    assert TextOk(mem, blocks, s, interned[s]);
  }

  // Searching the chain of s finds its object, or s was never interned.
  lemma Lookup(chain: seq<Entry>, h: nat, keys: seq<string>, mem: Memory, blocks: seq<Block>, interned: map<string, nat>, s: string, i: int)
    requires ChainOk(chain, h, keys, blocks, interned) && TextsOk(mem, blocks, interned) && (s in interned ==> s in keys)
    requires i >= 0 ==> i < |chain| && chain[i].len == |s| && TextAt(mem, chain[i].str, |s|) == s
    requires i < 0 ==> forall j :: 0 <= j < |chain| ==> chain[j].len != |s| || TextAt(mem, chain[j].str, |s|) != s
    ensures i >= 0 ==> s in interned && interned[s] < |blocks| && chain[i].str == blocks[interned[s]].at
    ensures i < 0 ==> s !in interned
  {
    hide Slot, TextsOk;
    if i >= 0 {
      assert Names(chain[i], keys[i], blocks, interned);
      TextKept(mem, blocks, interned, keys[i]);
    } else {
      forall j | 0 <= j < |chain|
        ensures keys[j] != s
      {
        assert Names(chain[j], keys[j], blocks, interned);
        TextKept(mem, blocks, interned, keys[j]);
      }
    }
  }
}
