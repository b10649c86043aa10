/** The paged KV block pool: reference-counted blocks, a free stack, block tables and the
    host-side eviction buffer. */
module BlockPool {
  import opened Arithmetic
  import opened Common
  import opened BlockAccounting

  /** The contents of one physical block, all layers together. */
  type Block = seq<int>

  /** Blocks are shared inside families only. */
  ghost predicate FamiliesOk(tables: Tables, family: map<nat, nat>, nextFamily: nat) {
    && (forall s :: s in tables ==> s in family && family[s] < nextFamily)
    && (forall s, t, b :: s in tables && t in tables && b in tables[s] && b in tables[t] ==> family[s] == family[t])
  }

  lemma FamiliesShrink(tables: Tables, family: map<nat, nat>, nextFamily: nat, s: nat)
    requires FamiliesOk(tables, family, nextFamily) && s in tables
    ensures FamiliesOk(tables[s := []], family, nextFamily)
  {
  }

  lemma FamiliesGrow(tables: Tables, family: map<nat, nat>, nextFamily: nat, s: nat, b: nat)
    requires FamiliesOk(tables, family, nextFamily) && s in tables && forall t :: t in tables ==> b !in tables[t]
    ensures FamiliesOk(tables[s := tables[s] + [b]], family, nextFamily)
  {
  }

  /** The host buffer is large enough for every evicted sequence and holds the latest one. */
  ghost predicate SwappedOk(evicted: map<nat, nat>, tables: Tables, hostBuf: seq<Block>, last: Option<nat>,
                            saved: seq<Block>) {
    && (forall s :: s in evicted ==> s in tables && evicted[s] <= |hostBuf|)
    && (last.Some? && last.value in evicted ==>
          evicted[last.value] == |saved| <= |hostBuf| && hostBuf[..|saved|] == saved)
  }

  lemma SwappedOut(evicted: map<nat, nat>, tables: Tables, hostBuf: seq<Block>, hostBuf': seq<Block>, last: Option<nat>,
                   saved: seq<Block>, s: nat, saved': seq<Block>)
    requires SwappedOk(evicted, tables, hostBuf, last, saved) && s in tables
    requires |hostBuf| <= |hostBuf'| && |saved'| <= |hostBuf'| && hostBuf'[..|saved'|] == saved'
    ensures SwappedOk(evicted[s := |saved'|], tables[s := []], hostBuf', Some(s), saved')
  {
  }

  class CudaAllocator {
    const blockSize: nat
    var freeList: seq<nat>
    var refCounts: seq<nat>
    var blockTables: Tables
    var evictedSeqs: map<nat, nat>

    /** Device blocks and the pinned host buffer, as contents. */
    var device: seq<Block>
    var hostBuf: seq<Block>

    /** Which sequences descend from one another by copying. */
    ghost var family: map<nat, nat>
    ghost var nextFamily: nat
    /** The latest eviction, and what it saved. */
    ghost var lastEvicted: Option<nat>
    ghost var saved: seq<Block>

    ghost predicate Books()
      reads this
    {
      Accounts(freeList, refCounts, blockTables)
    }

    ghost predicate Families()
      reads this
    {
      FamiliesOk(blockTables, family, nextFamily)
    }

    ghost predicate Swapped()
      reads this
    {
      SwappedOk(evictedSeqs, blockTables, hostBuf, lastEvicted, saved)
    }

    ghost predicate Valid()
      reads this
      ensures Valid() ==> blockSize > 0
    {
      blockSize > 0 && |device| == |refCounts| && Books() && Families() && Swapped()
    }

    /** The contents of a sequence's cache, block by block. */
    ghost function Contents(s: nat): (c: seq<Block>)
      requires Valid() && s in blockTables
      reads this
      ensures |c| == |blockTables[s]|
    {
      Read(device, blockTables[s])
    }

    constructor (blockSize: nat, maxNumBlocks: nat)
      requires blockSize > 0
      ensures family == map[] && nextFamily == 0
      ensures Valid() && this.blockSize == blockSize && |refCounts| == maxNumBlocks
      ensures blockTables == map[] && evictedSeqs == map[] && |freeList| == maxNumBlocks
      ensures forall k :: 0 <= k < maxNumBlocks ==> freeList[k] == maxNumBlocks - 1 - k
    {
      this.blockSize := blockSize;
      refCounts := seq(maxNumBlocks, i => 0);
      freeList := seq(maxNumBlocks, i requires 0 <= i < maxNumBlocks => maxNumBlocks - 1 - i);
      device := seq(maxNumBlocks, i => []);
      blockTables, evictedSeqs, hostBuf := map[], map[], [];
      family, nextFamily, lastEvicted, saved := map[], 0, None, [];
      new;
      FreshBooks();
    }

    lemma FreshBooks()
      requires refCounts == seq(|refCounts|, i => 0) && blockTables == map[] && |freeList| == |refCounts|
      requires forall k :: 0 <= k < |freeList| ==> freeList[k] == |freeList| - 1 - k
      ensures Books()
    {
      forall b | 0 <= b < |refCounts| ensures b in freeList && Holders(blockTables, b) == {} {
        assert freeList[|freeList| - 1 - b] == b;
      }
    }

    /** alloc_block_locked: the top of the free stack, or -1. */
    method AllocBlockLocked() returns (id: int)
      requires freeList != [] ==> freeList[|freeList| - 1] < |refCounts|
      modifies this`freeList, this`refCounts
      ensures |old(freeList)| == 0 ==> id == -1 && freeList == old(freeList) && refCounts == old(refCounts)
      ensures |old(freeList)| > 0 ==>
        && id == old(freeList)[|old(freeList)| - 1] && freeList == old(freeList)[..|old(freeList)| - 1]
        && refCounts == old(refCounts)[id := 1]
    {
      if |freeList| == 0 {
        return -1;
      }
      id := freeList[|freeList| - 1];
      freeList := freeList[..|freeList| - 1];
      refCounts := refCounts[id := 1];
    }

    /** free_block_locked: one holder less; the last one puts the block back on the stack. */
    method FreeBlockLocked(id: nat)
      requires id < |refCounts| && refCounts[id] > 0
      modifies this`freeList, this`refCounts
      ensures refCounts == old(refCounts)[id := old(refCounts)[id] - 1]
      ensures freeList == if old(refCounts)[id] == 1 then old(freeList) + [id] else old(freeList)
    {
      refCounts := refCounts[id := refCounts[id] - 1];
      if refCounts[id] <= 0 {
        refCounts := refCounts[id := 0];
        freeList := freeList + [id];
      }
    }

    /** The allocation loop: n blocks for the table of a sequence that has none yet. */
    method AllocBlocks(s: nat, n: nat) returns (bt: seq<nat>)
      requires Books() && s !in blockTables && n <= |freeList|
      modifies this`freeList, this`refCounts
      ensures freeList == old(freeList)[..|old(freeList)| - n] && bt == TopOf(old(freeList), n)
      ensures |refCounts| == |old(refCounts)| && Accounts(freeList, refCounts, blockTables[s := bt])
      ensures forall t, b :: t in blockTables && b in bt ==> b !in blockTables[t]
    {
      hide Accounts;
      bt := [];
      AccountsEmpty(freeList, refCounts, blockTables, s);
      for i := 0 to n
        invariant |freeList| == |old(freeList)| - i && freeList == old(freeList)[..|old(freeList)| - i]
        invariant |refCounts| == |old(refCounts)| && bt == TopOf(old(freeList), i)
        invariant Accounts(freeList, refCounts, blockTables[s := bt])
        invariant forall t, b :: t in blockTables && b in bt ==> b !in blockTables[t]
      {
        ghost var tables := blockTables[s := bt];
        AccountsAlloc(freeList, refCounts, tables, s);
        assert forall t :: t in blockTables ==> t in tables && tables[t] == blockTables[t];
        ghost var top := freeList[|freeList| - 1];
        assert tables[s := bt + [top]] == blockTables[s := bt + [top]];
        var id := AllocBlockLocked();
        if id < 0 {
          assert false;  // the rollback of a partial allocation is never needed
        }
        bt := bt + [id];
      }
    }

    /** allocate_sequence: all of the blocks or none, taken from the top of the free stack. */
    method AllocateSequence(s: nat, numPromptTokens: nat) returns (ok: bool)
      requires Valid()
      modifies this`freeList, this`refCounts, this`blockTables, this`family, this`nextFamily
      ensures |refCounts| == |old(refCounts)|
      ensures Valid()
      ensures ok <==> s !in old(blockTables) && BlocksFor(numPromptTokens, blockSize) <= |old(freeList)|
      ensures !ok ==>
        && freeList == old(freeList) && refCounts == old(refCounts)
        && blockTables == old(blockTables) && family == old(family)
      ensures ok ==>
        var n := BlocksFor(numPromptTokens, blockSize);
        && freeList == old(freeList)[..|old(freeList)| - n]
        && blockTables == old(blockTables)[s := TopOf(old(freeList), n)]
        && family == old(family)[s := old(nextFamily)] && nextFamily == old(nextFamily) + 1
    {
      hide Accounts;
      if s in blockTables {
        return false;
      }
      var numBlocks := (numPromptTokens + blockSize - 1) / blockSize;
      numBlocks := if numBlocks < 1 then 1 else numBlocks;
      if |freeList| < numBlocks {
        return false;
      }
      var bt := AllocBlocks(s, numBlocks);
      blockTables := blockTables[s := bt];
      family := family[s := nextFamily];
      nextFamily := nextFamily + 1;
      return true;
    }

    /** extend_sequence: one more block from the top of the free stack. */
    method ExtendSequence(s: nat) returns (id: int)
      requires Valid()
      modifies this`freeList, this`refCounts, this`blockTables
      ensures |refCounts| == |old(refCounts)|
      ensures Valid()
      ensures id == -1 <==> s !in old(blockTables) || old(freeList) == []
      ensures id == -1 ==> freeList == old(freeList) && refCounts == old(refCounts) && blockTables == old(blockTables)
      ensures id != -1 ==>
        && id == old(freeList)[|old(freeList)| - 1] && freeList == old(freeList)[..|old(freeList)| - 1]
        && blockTables == old(blockTables)[s := old(blockTables)[s] + [id]]
    {
      hide Accounts;
      if s !in blockTables {
        return -1;
      }
      if freeList != [] {
        AccountsAlloc(freeList, refCounts, blockTables, s);
      }
      id := AllocBlockLocked();
      if id < 0 {
        return -1;
      }
      blockTables := blockTables[s := blockTables[s] + [id]];
    }

    /** Gives back every block of a table; shared blocks stay with their other holders. */
    method ReleaseBlocks(s: nat)
      requires Books() && s in blockTables
      modifies this`freeList, this`refCounts
      ensures |refCounts| == |old(refCounts)| && Accounts(freeList, refCounts, blockTables[s := []])
      ensures freeList == Released(old(freeList), old(refCounts), blockTables[s])
    {
      hide Accounts, Released;
      var bt := blockTables[s];
      assert blockTables[s := bt[0..]] == blockTables;
      ghost var free0, refs0 := freeList, refCounts;
      assert bt[0..] == bt;
      for i := 0 to |bt|
        invariant |refCounts| == |old(refCounts)| && Accounts(freeList, refCounts, blockTables[s := bt[i..]])
        invariant Released(freeList, refCounts, bt[i..]) == Released(free0, refs0, bt)
      {
        AccountsRelease(freeList, refCounts, blockTables, s, bt, i);
        ReleasedNext(freeList, refCounts, bt, i);
        FreeBlockLocked(bt[i]);
      }
      assert bt[|bt|..] == [];
      NothingReleased(freeList, refCounts);
    }

    /** free_sequence. */
    method FreeSequence(s: nat)
      requires Valid()
      modifies this`freeList, this`refCounts, this`blockTables, this`evictedSeqs
      ensures |refCounts| == |old(refCounts)|
      ensures Valid() && blockTables == old(blockTables) - {s} && evictedSeqs == old(evictedSeqs) - {s}
      ensures s !in old(blockTables) ==> freeList == old(freeList) && refCounts == old(refCounts)
      ensures s in old(blockTables) ==> freeList == Released(old(freeList), old(refCounts), old(blockTables)[s])
    {
      hide Accounts, Released;
      if s !in blockTables {
        assert blockTables - {s} == blockTables && evictedSeqs - {s} == evictedSeqs;
        return;
      }
      ReleaseBlocks(s);
      AccountsEmpty(freeList, refCounts, blockTables[s := []], s);
      assert blockTables[s := []] - {s} == blockTables - {s};
      blockTables := blockTables - {s};
      evictedSeqs := evictedSeqs - {s};
    }

    /** copy_sequence shares the source's blocks.  It does not look at the destination, so the
        books survive exactly when the destination had no blocks. */
    method CopySequence(src: nat, dst: nat) returns (ok: bool)
      requires Valid()
      modifies this`refCounts, this`blockTables, this`family
      ensures ok <==> src in old(blockTables)
      ensures !ok ==> blockTables == old(blockTables) && refCounts == old(refCounts) && Valid()
      ensures ok ==> blockTables == old(blockTables)[dst := old(blockTables)[src]]
      ensures ok ==> (Valid() <==> dst !in old(blockTables) || old(blockTables)[dst] == [])
      ensures ok ==> family == old(family)[dst := old(family)[src]]
      ensures ok ==> (forall k :: 0 <= k < |old(blockTables)[src]| ==> old(blockTables)[src][k] < |old(refCounts)|)
                     && refCounts == Bumped(old(refCounts), old(blockTables)[src])
    {
      if src !in blockTables {
        return false;
      }
      hide Accounts;
      var bt := blockTables[src];
      CopyCondition(freeList, refCounts, blockTables, src, dst);
      InRange(src);
      blockTables := blockTables[dst := bt];
      family := family[dst := family[src]];
      BumpRefs(bt);
      return true;
    }

    method BumpRefs(bt: seq<nat>)
      requires forall k :: 0 <= k < |bt| ==> bt[k] < |refCounts|
      modifies this`refCounts
      ensures refCounts == Bumped(old(refCounts), bt)
    {
      assert bt[..0] == [];
      for i := 0 to |bt|
        invariant |refCounts| == |old(refCounts)| && refCounts == Bumped(old(refCounts), bt[..i])
      {
        assert bt[..i + 1][..i] == bt[..i];
        refCounts := refCounts[bt[i] := refCounts[bt[i]] + 1];
      }
      assert bt[..|bt|] == bt;
    }

    lemma BooksBalance()
      requires Valid()
      ensures Accounts(freeList, refCounts, blockTables)
    {
    }

    lemma InRange(s: nat)
      requires Books() && s in blockTables
      ensures forall k :: 0 <= k < |blockTables[s]| ==> blockTables[s][k] < |refCounts|
      ensures Distinct(blockTables[s])
    {
    }

    /** get_device_slot_mapping: the source asserts that every position is covered. */
    method SlotMapping(s: nat, numTokens: nat, startPos: nat) returns (slots: Option<seq<nat>>)
      requires Valid()
      requires s in blockTables && numTokens > 0 ==> (startPos + numTokens - 1) / blockSize < |blockTables[s]|
      ensures slots.None? <==> s !in blockTables
      ensures slots.Some? ==> |slots.value| == numTokens && forall i :: 0 <= i < numTokens ==>
        Mapped(blockTables[s], blockSize, startPos + i, slots.value[i])
      ensures slots.Some? ==> forall i :: 0 <= i < numTokens ==>
        var pos := startPos + i;
        pos / blockSize < |blockTables[s]|
        && slots.value[i] == blockTables[s][pos / blockSize] * blockSize + pos % blockSize
    {
      if s !in blockTables {
        return None;
      }
      var out := MapPositions(blockTables[s], blockSize, numTokens, startPos);
      return Some(out);
    }

    /** Sequences that do not descend from one another by copying never write the same slot. */
    lemma FamiliesApart(s: nat, t: nat, p: nat, q: nat)
      requires Valid() && s in blockTables && t in blockTables && family[s] != family[t]
      requires p / blockSize < |blockTables[s]| && q / blockSize < |blockTables[t]|
      ensures SlotOf(blockTables[s], blockSize, p) != SlotOf(blockTables[t], blockSize, q)
    {
      hide Accounts;
      if SlotOf(blockTables[s], blockSize, p) == SlotOf(blockTables[t], blockSize, q) {
        SlotsMeet(freeList, refCounts, blockTables, s, t, blockSize, p, q);
        assert false;
      }
    }

    /** The copy-out loop of an eviction: each block goes to the host buffer and back to the pool. */
    method EvictBlocks(s: nat)
      requires Books() && s in blockTables && |device| == |refCounts| && |blockTables[s]| <= |hostBuf|
      modifies this`freeList, this`refCounts, this`hostBuf
      ensures |refCounts| == |old(refCounts)| && Accounts(freeList, refCounts, blockTables[s := []])
      ensures freeList == Released(old(freeList), old(refCounts), blockTables[s])
      ensures forall k :: 0 <= k < |blockTables[s]| ==> blockTables[s][k] < |device|
      ensures hostBuf == Read(device, blockTables[s]) + old(hostBuf)[|blockTables[s]|..]
    {
      hide Accounts, Released;
      var bt := blockTables[s];
      InRange(s);
      assert blockTables[s := bt[0..]] == blockTables && bt[0..] == bt;
      ghost var free0, refs0, out := freeList, refCounts, Read(device, bt);
      assert out[..0] == [];
      for i := 0 to |bt|
        invariant |refCounts| == |old(refCounts)| && Accounts(freeList, refCounts, blockTables[s := bt[i..]])
        invariant Released(freeList, refCounts, bt[i..]) == Released(free0, refs0, bt)
        invariant hostBuf == out[..i] + old(hostBuf)[i..]
      {
        AccountsRelease(freeList, refCounts, blockTables, s, bt, i);
        ReleasedNext(freeList, refCounts, bt, i);
        CopiedNext(out, old(hostBuf), i);
        hostBuf := hostBuf[i := device[bt[i]]];
        FreeBlockLocked(bt[i]);
      }
      assert bt[|bt|..] == [] && out[..|bt|] == out;
      NothingReleased(freeList, refCounts);
    }

    /** evict_sequence: the blocks' contents go to the front of the host buffer, the blocks
        back to the pool. */
    method EvictSequence(s: nat) returns (ok: bool)
      requires Valid()
      modifies this`freeList, this`refCounts, this`blockTables, this`evictedSeqs, this`hostBuf
      modifies this`lastEvicted, this`saved
      ensures |refCounts| == |old(refCounts)|
      ensures Valid()
      ensures ok <==> s in old(blockTables)
      ensures !ok || s in old(evictedSeqs) ==>
        && freeList == old(freeList) && blockTables == old(blockTables) && evictedSeqs == old(evictedSeqs)
        && hostBuf == old(hostBuf) && lastEvicted == old(lastEvicted) && saved == old(saved)
      ensures ok && s !in old(evictedSeqs) ==>
        && blockTables == old(blockTables)[s := []] && evictedSeqs == old(evictedSeqs)[s := |old(blockTables)[s]|]
        && freeList == Released(old(freeList), old(refCounts), old(blockTables)[s])
        && lastEvicted == Some(s) && saved == old(Contents(s)) && |saved| <= |hostBuf|
        && (|saved| <= |old(hostBuf)| ==> hostBuf == saved + old(hostBuf)[|saved|..])
        && (|saved| > |old(hostBuf)| ==> |hostBuf| == 2 * |saved|)
    {
      hide Accounts, Released, FamiliesOk, SwappedOk;
      if s !in blockTables {
        return false;
      }
      if s in evictedSeqs {
        return true;
      }
      var n := |blockTables[s]|;
      saved := Contents(s);
      lastEvicted := Some(s);
      if |hostBuf| < n {
        GrowHostBuf(n * 2);
      }
      EvictBlocks(s);
      FamiliesShrink(blockTables, family, nextFamily, s);
      assert hostBuf[..n] == saved;
      SwappedOut(evictedSeqs, blockTables, old(hostBuf), hostBuf, old(lastEvicted), old(saved), s, saved);
      evictedSeqs := evictedSeqs[s := n];
      blockTables := blockTables[s := []];
      return true;
    }

    /** A new host buffer; what it holds is unknown. */
    method GrowHostBuf(n: nat)
      modifies this`hostBuf
      ensures |hostBuf| == n
    {
      var garbage: Block := *;
      hostBuf := seq(n, i => garbage);
    }

    /** One turn of the reload loop. */
    method ReloadBlock(s: nat, i: nat)
      requires Valid() && s in blockTables && freeList != [] && i < |hostBuf|
      modifies this`freeList, this`refCounts, this`blockTables, this`device
      ensures Valid() && freeList == old(freeList)[..|old(freeList)| - 1] && |refCounts| == |old(refCounts)|
      ensures blockTables == old(blockTables)[s := old(blockTables)[s] + [old(freeList)[|old(freeList)| - 1]]]
      ensures Contents(s) == old(Contents(s)) + [hostBuf[i]]
      ensures forall t :: t in blockTables && t != s ==> Contents(t) == old(Contents(t))
    {
      hide Accounts, FamiliesOk;
      AccountsAlloc(freeList, refCounts, blockTables, s);
      FamiliesGrow(blockTables, family, nextFamily, s, freeList[|freeList| - 1]);
      forall t | t in blockTables ensures forall k :: 0 <= k < |blockTables[t]| ==> blockTables[t][k] < |refCounts| {
        InRange(t);
      }
      var id := AllocBlockLocked();
      if id < 0 {
        assert false;  // the free stack is not empty here
      }
      blockTables := blockTables[s := blockTables[s] + [id]];
      device := device[id := hostBuf[i]];
    }

    /** reload_sequence: blocks from the top of the free stack, filled from the front of the
        host buffer; without enough blocks it stops half way. */
    method ReloadSequence(s: nat) returns (ok: bool)
      requires Valid()
      modifies this`freeList, this`refCounts, this`blockTables, this`evictedSeqs, this`device
      ensures |refCounts| == |old(refCounts)|
      ensures Valid()
      ensures ok <==> s in old(evictedSeqs) && old(evictedSeqs)[s] <= |old(freeList)|
      ensures evictedSeqs == if ok then old(evictedSeqs) - {s} else old(evictedSeqs)
      ensures s !in old(evictedSeqs) ==>
        freeList == old(freeList) && blockTables == old(blockTables) && device == old(device)
      ensures s in old(evictedSeqs) ==>
        var n := Reloaded(old(evictedSeqs)[s], |old(freeList)|);
        && freeList == old(freeList)[..|old(freeList)| - n]
        && blockTables == old(blockTables)[s := old(blockTables)[s] + TopOf(old(freeList), n)]
        && s in blockTables && n <= |hostBuf| && Contents(s) == old(Contents(s)) + hostBuf[..n]
      ensures forall t :: t in old(blockTables) && t != s ==> t in blockTables && Contents(t) == old(Contents(t))
      ensures ok && old(lastEvicted) == Some(s) ==> (Contents(s) == saved <==> old(blockTables)[s] == [])
    {
      hide Books, Families, Swapped, Released, TopOf, CudaAllocator.Contents;
      if s !in evictedSeqs {
        return false;
      }
      EvictedInBuffer(s);
      var n := evictedSeqs[s];
      ghost var bt0 := blockTables[s];
      NothingReloaded(bt0, freeList);
      assert blockTables[s := bt0] == blockTables;
      for i := 0 to n
        invariant Valid() && s in evictedSeqs && evictedSeqs == old(evictedSeqs) && i <= |old(freeList)|
        invariant freeList == old(freeList)[..|old(freeList)| - i] && |refCounts| == |old(refCounts)|
        invariant blockTables == old(blockTables)[s := bt0 + TopOf(old(freeList), i)]
        invariant Contents(s) == old(Contents(s)) + hostBuf[..i]
        invariant forall t :: t in old(blockTables) && t != s ==> Contents(t) == old(Contents(t))
      {
        if freeList == [] {
          return false;
        }
        ReloadBlock(s, i);
        ReloadedNext(bt0, old(freeList), i);
      }
      FinishReload(s);
      return true;
    }

    /** Two evictions and the reload of the first: what comes back is overlaid with the second
        sequence's blocks, whether or not the buffer was grown for them. */
    method EvictBothReload(s: nat, t: nat) returns (ok: bool)
      requires Valid() && s != t && s in blockTables && t in blockTables && s !in evictedSeqs && t !in evictedSeqs
      modifies this
      ensures Valid() && |refCounts| == |old(refCounts)| && s in blockTables
      ensures ok ==> Contents(s) == Overlaid(old(Contents(s)), old(Contents(t)))
      ensures (forall u :: u in old(blockTables) && u != s && u != t ==> old(blockTables)[u] == []) ==> ok
    {
      hide Books, Families, Swapped, Released, Accounts;
      Fits(s);
      ghost var x, y := Contents(s), Contents(t);
      var evicted := EvictSequence(s);
      EvictedInBuffer(s);
      ghost var buf := hostBuf;
      assert Contents(t) == y && buf[..|x|] == x;
      evicted := EvictSequence(t);
      EvictedInBuffer(t);
      FrontOfBuffer(x, y, buf, hostBuf);
      if forall u :: u in old(blockTables) && u != s && u != t ==> old(blockTables)[u] == [] {
        AllFree();
      }
      ok := ReloadSequence(s);
      assert ok ==> Contents(s) == [] + hostBuf[..|x|];
    }

    lemma Fits(s: nat)
      requires Valid() && s in blockTables
      ensures |blockTables[s]| <= |refCounts|
    {
      TableFitsPool(freeList, refCounts, blockTables, s);
    }

    lemma AllFree()
      requires Valid() && forall u :: u in blockTables ==> blockTables[u] == []
      ensures |freeList| == |refCounts|
    {
      UsedPlusFree(freeList, refCounts, blockTables);
      assert Held(blockTables) == {};
    }

    /** The forward pass writes a block's contents. */
    method WriteBlock(s: nat, i: nat, block: Block)
      requires Valid() && s in blockTables && i < |blockTables[s]|
      modifies this`device
      ensures Valid() && device == old(device)[blockTables[s][i] := block]
    {
      InRange(s);
      device := device[blockTables[s][i] := block];
    }

    lemma EvictedInBuffer(s: nat)
      requires Valid() && s in evictedSeqs
      ensures s in blockTables && evictedSeqs[s] <= |hostBuf|
      ensures lastEvicted == Some(s) ==> evictedSeqs[s] == |saved| && hostBuf[..|saved|] == saved
    {
    }

    method FinishReload(s: nat)
      requires Valid()
      modifies this`evictedSeqs
      ensures Valid() && evictedSeqs == old(evictedSeqs) - {s}
      ensures forall t :: t in blockTables ==> Contents(t) == old(Contents(t))
    {
      evictedSeqs := evictedSeqs - {s};
    }
  }

  ghost predicate Mapped(bt: seq<nat>, blockSize: nat, pos: nat, slot: nat) {
    blockSize > 0 && pos / blockSize < |bt| && slot == SlotOf(bt, blockSize, pos)
  }

  method MapPositions(bt: seq<nat>, blockSize: nat, numTokens: nat, startPos: nat) returns (slots: seq<nat>)
    requires blockSize > 0 && (numTokens > 0 ==> (startPos + numTokens - 1) / blockSize < |bt|)
    ensures |slots| == numTokens && forall i :: 0 <= i < numTokens ==> Mapped(bt, blockSize, startPos + i, slots[i])
  {
    slots := [];
    for i := 0 to numTokens
      invariant |slots| == i && forall k :: 0 <= k < i ==> Mapped(bt, blockSize, startPos + k, slots[k])
    {
      DivMonotone(startPos + i, startPos + numTokens - 1, blockSize);
      var slot := PositionSlot(bt, blockSize, startPos + i);
      hide Mapped;
      slots := slots + [slot];
    }
  }

  method PositionSlot(bt: seq<nat>, blockSize: nat, pos: nat) returns (slot: nat)
    requires blockSize > 0 && pos / blockSize < |bt|
    ensures Mapped(bt, blockSize, pos, slot)
  {
    var blkIdx := pos / blockSize;
    var blkOff := pos % blockSize;
    slot := bt[blkIdx] * blockSize + blkOff;
  }

  /** max(1, ceil(tokens / blockSize)). */
  function BlocksFor(tokens: nat, blockSize: nat): (n: nat)
    requires blockSize > 0
    ensures n >= 1 && tokens <= n * blockSize && (n > 1 ==> (n - 1) * blockSize < tokens)
  {
    var q := (tokens + blockSize - 1) / blockSize;
    assert tokens + blockSize - 1 == blockSize * q + (tokens + blockSize - 1) % blockSize;
    if q < 1 then 1 else q
  }

  /** The top n entries of a stack, topmost first. */
  function TopOf(stack: seq<nat>, n: nat): (top: seq<nat>)
    requires n <= |stack|
    ensures |top| == n
  {
    if n == 0 then [] else TopOf(stack, n - 1) + [stack[|stack| - n]]
  }

  /** What comes back of contents x after contents y were saved over the front of the buffer. */
  function Overlaid(x: seq<Block>, y: seq<Block>): (r: seq<Block>)
    ensures |r| == |x|
  {
    if |y| <= |x| then y + x[|y|..] else y[..|x|]
  }

  /** The first eviction survives a second one, whatever the contents, exactly when one of the two
      sequences had no blocks. */
  lemma SecondEvictionCondition(n: nat, k: nat)
    ensures (forall x, y :: |x| == n && |y| == k ==> Overlaid(x, y) == x) <==> n == 0 || k == 0
  {
    if n == 0 || k == 0 {
      forall x: seq<Block>, y: seq<Block> | |x| == n && |y| == k ensures Overlaid(x, y) == x {
        assert k == 0 ==> y + x[0..] == x;
      }
    } else {
      var x: seq<Block>, y: seq<Block> := seq(n, i => [0]), seq(k, i => [1]);
      assert Overlaid(x, y)[0] == [1] && x[0] == [0];
    }
  }

  /** How many of n blocks a reload gets from a free stack of the given size. */
  function Reloaded(n: nat, free: nat): nat {
    if n <= free then n else free
  }

  /** The free stack after every block of `bt` has lost one holder. */
  function Released(free: seq<nat>, refs: seq<nat>, bt: seq<nat>): seq<nat>
    decreases |bt|
  {
    if bt == [] then free
    else if bt[0] < |refs| && refs[bt[0]] > 0 then
      Released(if refs[bt[0]] == 1 then free + [bt[0]] else free, refs[bt[0] := refs[bt[0]] - 1], bt[1..])
    else free
  }

  lemma ReleasedNext(free: seq<nat>, refs: seq<nat>, bt: seq<nat>, i: nat)
    requires i < |bt| && bt[i] < |refs| && refs[bt[i]] > 0
    ensures Released(free, refs, bt[i..]) ==
      Released(if refs[bt[i]] == 1 then free + [bt[i]] else free, refs[bt[i] := refs[bt[i]] - 1], bt[i + 1..])
  {
    assert bt[i..][0] == bt[i] && bt[i..][1..] == bt[i + 1..];
  }

  lemma NothingReleased(free: seq<nat>, refs: seq<nat>)
    ensures Released(free, refs, []) == free
  {
  }

  lemma CopiedNext<T>(out: seq<T>, buf: seq<T>, i: nat)
    requires i < |out| <= |buf|
    ensures (out[..i] + buf[i..])[i := out[i]] == out[..i + 1] + buf[i + 1..]
  {
  }

  lemma NothingReloaded(bt: seq<nat>, stack: seq<nat>)
    ensures bt + TopOf(stack, 0) == bt
  {
  }

  lemma ReloadedNext(bt: seq<nat>, stack: seq<nat>, i: nat)
    requires i < |stack|
    ensures bt + TopOf(stack, i + 1) == bt + TopOf(stack, i) + [stack[|stack| - 1 - i]]
  {
  }

  ghost function Read(device: seq<Block>, bt: seq<nat>): seq<Block>
    requires forall k :: 0 <= k < |bt| ==> bt[k] < |device|
  {
    seq(|bt|, k requires 0 <= k < |bt| => device[bt[k]])
  }

  /** The front of the buffer after a second eviction, in place or in a new buffer. */
  lemma FrontOfBuffer(x: seq<Block>, y: seq<Block>, buf: seq<Block>, after: seq<Block>)
    requires |x| <= |buf| && buf[..|x|] == x && |y| <= |after| && after[..|y|] == y && |x| <= |after|
    requires |y| <= |buf| ==> after == y + buf[|y|..]
    ensures after[..|x|] == Overlaid(x, y)
  {
    forall k | 0 <= k < |x| ensures after[k] == Overlaid(x, y)[k] {
      assert |y| <= k ==> after[k] == buf[k] == buf[..|x|][k];
      assert k < |y| ==> after[k] == after[..|y|][k];
    }
  }

  /** A pool of two blocks, one for each of two sequences. */
  method TwoSequences() returns (a: CudaAllocator)
    ensures fresh(a) && a.Valid() && a.blockSize == 1 && |a.refCounts| == 2
    ensures a.blockTables == map[1 := [0], 2 := [1]] && a.evictedSeqs == map[]
    ensures a.family.Keys == {1, 2} && a.family[1] != a.family[2]
  {
    hide Accounts, Released, CudaAllocator.Valid, BlocksFor, TopOf;
    OneBlock();
    a := new CudaAllocator(1, 2);
    assert a.freeList == [1, 0];
    var ok := a.AllocateSequence(1, 1);
    assert a.freeList == [1];
    ok := a.AllocateSequence(2, 1);
  }

  lemma OneBlock()
    ensures BlocksFor(1, 1) == 1 && TopOf([1, 0], 1) == [0] && TopOf([1], 1) == [1]
  {
    assert TopOf([1, 0], 0) == [] && TopOf([1], 0) == [];
  }

  /** Two sequences of one block each are evicted, and the first comes back with the second one's
      contents. */
  method OneBlockEach() returns (a: CudaAllocator, ok: bool, ghost before: seq<Block>)
    ensures a.Valid() && 1 in a.blockTables && ok && before == [[10]] && a.Contents(1) == [[20]]
  {
    hide Accounts, Released, CudaAllocator.Books, CudaAllocator.Families, CudaAllocator.Swapped;
    a := TwoSequences();
    a.WriteBlock(1, 0, [10]);
    a.WriteBlock(2, 0, [20]);
    before := a.Contents(1);
    ghost var other := a.Contents(2);
    assert before == [[10]] && other == [[20]];
    ok := a.EvictBothReload(1, 2);
    assert Overlaid(before, other) == [[20]];
  }
}
