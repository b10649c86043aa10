/** What the block pool's books say: reference counts against block tables, the free stack,
    and the arithmetic from positions to slots. */
module BlockAccounting {
  import opened Arithmetic
  import opened Common

  type Tables = map<nat, seq<nat>>

  // ---- accounting ----

  ghost predicate Distinct(s: seq<nat>) {
    forall i, j :: 0 <= i < j < |s| ==> s[i] != s[j]
  }

  /** The sequences whose block table contains block b. */
  ghost function Holders(tables: Tables, b: nat): set<nat> {
    set s | s in tables && b in tables[s]
  }

  /** A block's count is the number of tables it is in, and the free stack holds exactly the
      blocks in none, once each. */
  ghost predicate Accounts(free: seq<nat>, refs: seq<nat>, tables: Tables) {
    && Distinct(free) && (forall k :: 0 <= k < |free| ==> free[k] < |refs|)
    && (forall b :: 0 <= b < |refs| ==> refs[b] == |Holders(tables, b)|)
    && (forall b :: 0 <= b < |refs| ==> (b in free <==> refs[b] == 0))
    && (forall s :: s in tables ==> Distinct(tables[s]) && forall k :: 0 <= k < |tables[s]| ==> tables[s][k] < |refs|)
  }

  /** A block that some table holds is counted. */
  lemma HeldIsCounted(free: seq<nat>, refs: seq<nat>, tables: Tables, s: nat, b: nat)
    requires Accounts(free, refs, tables) && s in tables && b in tables[s]
    ensures b < |refs| && refs[b] > 0 && b !in free
  {
    assert s in Holders(tables, b);
  }

  /** An empty table changes nothing. */
  lemma AccountsEmpty(free: seq<nat>, refs: seq<nat>, tables: Tables, s: nat)
    requires Accounts(free, refs, tables) && (s in tables ==> tables[s] == [])
    ensures Accounts(free, refs, tables[s := []]) && Accounts(free, refs, tables - {s})
  {
    forall b | 0 <= b < |refs|
      ensures Holders(tables[s := []], b) == Holders(tables, b) == Holders(tables - {s}, b)
    {
    }
  }

  /** Popping the free stack into a table. */
  lemma AccountsAlloc(free: seq<nat>, refs: seq<nat>, tables: Tables, s: nat)
    requires Accounts(free, refs, tables) && free != [] && s in tables
    ensures free[|free| - 1] < |refs|
    ensures forall t :: t in tables ==> free[|free| - 1] !in tables[t]
    ensures Accounts(free[..|free| - 1], refs[free[|free| - 1] := 1], tables[s := tables[s] + [free[|free| - 1]]])
  {
    var id := free[|free| - 1];
    assert id in free && refs[id] == 0;
    assert Holders(tables, id) == {};
    forall t | t in tables ensures id !in tables[t] {
      assert id in tables[t] ==> t in Holders(tables, id);
    }
    var tables' := tables[s := tables[s] + [id]];
    forall b | 0 <= b < |refs| ensures refs[id := 1][b] == |Holders(tables', b)| {
      assert Holders(tables', b) == if b == id then {s} else Holders(tables, b);
    }
    forall b | 0 <= b < |refs| ensures b in free[..|free| - 1] <==> b in free && b != id {
    }
  }

  /** Giving back the first block of a table. */
  lemma AccountsFree(free: seq<nat>, refs: seq<nat>, tables: Tables, s: nat)
    requires Accounts(free, refs, tables) && s in tables && tables[s] != []
    ensures tables[s][0] < |refs| && refs[tables[s][0]] > 0
    ensures Accounts(if refs[tables[s][0]] == 1 then free + [tables[s][0]] else free,
                     refs[tables[s][0] := refs[tables[s][0]] - 1], tables[s := tables[s][1..]])
  {
    var id := tables[s][0];
    HeldIsCounted(free, refs, tables, s, id);
    var tables' := tables[s := tables[s][1..]];
    forall b | 0 <= b < |refs| ensures refs[id := refs[id] - 1][b] == |Holders(tables', b)| {
      assert b != id ==> (b in tables[s] <==> b in tables[s][1..]);
      assert Holders(tables', b) == if b == id then Holders(tables, b) - {s} else Holders(tables, b);
      assert b == id ==> s in Holders(tables, b);
    }
  }

  /** The same in the middle of releasing a table: its blocks from i on are still held. */
  lemma AccountsRelease(free: seq<nat>, refs: seq<nat>, tables: Tables, s: nat, bt: seq<nat>, i: nat)
    requires i < |bt| && Accounts(free, refs, tables[s := bt[i..]])
    ensures bt[i] < |refs| && refs[bt[i]] > 0
    ensures Accounts(if refs[bt[i]] == 1 then free + [bt[i]] else free, refs[bt[i] := refs[bt[i]] - 1],
                     tables[s := bt[i + 1..]])
  {
    hide Accounts;
    AccountsFree(free, refs, tables[s := bt[i..]], s);
    assert bt[i..][0] == bt[i] && bt[i..][1..] == bt[i + 1..];
    assert tables[s := bt[i..]][s := bt[i + 1..]] == tables[s := bt[i + 1..]];
  }

  // ---- totals ----

  ghost function Held(tables: Tables): set<nat> {
    set s, b | s in tables && b in tables[s] :: b
  }

  ghost function Elements(s: seq<nat>): set<nat> {
    set b | b in s
  }

  /** A table is no longer than the pool. */
  lemma TableFitsPool(free: seq<nat>, refs: seq<nat>, tables: Tables, s: nat)
    requires Accounts(free, refs, tables) && s in tables
    ensures |tables[s]| <= |refs|
  {
    DistinctSize(tables[s], Elements(tables[s]));
    SubsetSize(Elements(tables[s]), Below(|refs|));
  }

  /** A block is held by some table or free, never both. */
  lemma FreeOrHeld(free: seq<nat>, refs: seq<nat>, tables: Tables, b: nat)
    requires Accounts(free, refs, tables) && b < |refs|
    ensures b in free <==> b !in Held(tables)
  {
    if b in Held(tables) {
      var s :| s in tables && b in tables[s];
      HeldIsCounted(free, refs, tables, s, b);
    } else {
      assert forall s :: s in Holders(tables, b) ==> b in Held(tables);
      assert Holders(tables, b) == {};
    }
  }

  /** used + free = total: the blocks that are not free are exactly those some table holds. */
  lemma UsedPlusFree(free: seq<nat>, refs: seq<nat>, tables: Tables)
    requires Accounts(free, refs, tables)
    ensures |Held(tables)| + |free| == |refs|
  {
    var f, held, all := Elements(free), Held(tables), Below(|refs|);
    DistinctSize(free, f);
    forall b: nat | b < |refs| ensures b in f <==> b !in held {
      FreeOrHeld(free, refs, tables, b);
    }
    assert held + f == all;
    assert held !! f;
    assert |held + f| == |held| + |f|;
  }

  /** The tables determine the counts and the set of free blocks. */
  lemma TablesDetermineFree(free: seq<nat>, refs: seq<nat>, free': seq<nat>, refs': seq<nat>, tables: Tables)
    requires Accounts(free, refs, tables) && Accounts(free', refs', tables) && |refs| == |refs'|
    ensures refs == refs' && Elements(free) == Elements(free')
  {
    forall b: nat | b in free || b in free' ensures b in free <==> b in free' {
      assert b < |refs|;
    }
  }

  // ---- copying ----

  /** The counts after every block of `bt` has been counted once more. */
  function Bumped(refs: seq<nat>, bt: seq<nat>): (r: seq<nat>)
    requires forall k :: 0 <= k < |bt| ==> bt[k] < |refs|
    ensures |r| == |refs|
  {
    if bt == [] then refs
    else
      var last := bt[|bt| - 1];
      var before := Bumped(refs, bt[..|bt| - 1]);
      before[last := before[last] + 1]
  }

  lemma {:induction false} BumpedOnce(refs: seq<nat>, bt: seq<nat>, b: nat)
    requires (forall k :: 0 <= k < |bt| ==> bt[k] < |refs|) && Distinct(bt) && b < |refs|
    ensures Bumped(refs, bt)[b] == refs[b] + if b in bt then 1 else 0
  {
    if bt != [] {
      var init := bt[..|bt| - 1];
      BumpedOnce(refs, init, b);
      assert bt == init + [bt[|bt| - 1]];
    }
  }

  lemma HoldersAfterCopy(tables: Tables, src: nat, dst: nat, b: nat)
    requires src in tables && (dst !in tables || tables[dst] == [])
    ensures Holders(tables[dst := tables[src]], b) ==
      if b in tables[src] then Holders(tables, b) + {dst} else Holders(tables, b)
    ensures dst !in Holders(tables, b) && (b in tables[src] ==> src in Holders(tables, b))
  {
  }

  /** Copying onto a new or empty destination adds it to the holders of each block. */
  lemma CopyKeeps(free: seq<nat>, refs: seq<nat>, tables: Tables, src: nat, dst: nat)
    requires Accounts(free, refs, tables) && src in tables && (dst !in tables || tables[dst] == [])
    ensures Accounts(free, Bumped(refs, tables[src]), tables[dst := tables[src]])
  {
    hide Bumped, Holders, Distinct;
    var refs', tables' := Bumped(refs, tables[src]), tables[dst := tables[src]];
    forall b | 0 <= b < |refs| ensures refs'[b] == |Holders(tables', b)| && (refs'[b] == 0 <==> refs[b] == 0) {
      BumpedOnce(refs, tables[src], b);
      HoldersAfterCopy(tables, src, dst, b);
    }
  }

  /** Copying over a destination with blocks leaves each of them counted once too often. */
  lemma CopyLeaks(free: seq<nat>, refs: seq<nat>, tables: Tables, src: nat, dst: nat, b: nat)
    requires Accounts(free, refs, tables) && src in tables && dst in tables && b in tables[dst] && b < |refs|
    ensures Bumped(refs, tables[src])[b] == |Holders(tables[dst := tables[src]], b)| + 1
  {
    var tables' := tables[dst := tables[src]];
    BumpedOnce(refs, tables[src], b);
    assert dst in Holders(tables, b);
    if b in tables[src] {
      assert Holders(tables', b) == Holders(tables, b);
    } else {
      assert Holders(tables', b) == Holders(tables, b) - {dst};
    }
  }

  /** Copying a table over another keeps the books exactly when the destination had no blocks
      of its own: it is new, or its table is empty. */
  lemma CopyCondition(free: seq<nat>, refs: seq<nat>, tables: Tables, src: nat, dst: nat)
    requires Accounts(free, refs, tables) && src in tables
    ensures Accounts(free, Bumped(refs, tables[src]), tables[dst := tables[src]])
      <==> dst !in tables || tables[dst] == []
  {
    if dst !in tables || tables[dst] == [] {
      CopyKeeps(free, refs, tables, src, dst);
    } else {
      var b := tables[dst][0];
      CopyLeaks(free, refs, tables, src, dst, b);
    }
  }

  // ---- positions ----

  /** slot = physical block * block size + offset. */
  function SlotOf(bt: seq<nat>, blockSize: nat, pos: nat): nat
    requires blockSize > 0 && pos / blockSize < |bt|
  {
    bt[pos / blockSize] * blockSize + pos % blockSize
  }

  /** A slot determines its block and offset. */
  lemma SlotDecodes(blockSize: nat, b: nat, off: nat, b': nat, off': nat)
    requires off < blockSize && off' < blockSize && b * blockSize + off == b' * blockSize + off'
    ensures b == b' && off == off'
  {
    assert (b - b') * blockSize == off' - off;
    MultipleBound(b - b', blockSize);
  }

  lemma TableInPool(free: seq<nat>, refs: seq<nat>, tables: Tables, s: nat)
    requires Accounts(free, refs, tables) && s in tables
    ensures Distinct(tables[s]) && forall k :: 0 <= k < |tables[s]| ==> tables[s][k] < |refs|
  {
  }

  /** Quotient and remainder determine a position. */
  lemma SameParts(p: nat, q: nat, n: nat)
    requires n > 0 && p / n == q / n && p % n == q % n
    ensures p == q
  {
    assert p == n * (p / n) + p % n && q == n * (q / n) + q % n;
  }

  /** Within a sequence no two positions share a slot, and every slot lies in the pool. */
  lemma SlotsInjective(free: seq<nat>, refs: seq<nat>, tables: Tables, s: nat, blockSize: nat, p: nat, q: nat)
    requires Accounts(free, refs, tables) && s in tables && blockSize > 0
    requires p / blockSize < |tables[s]| && q / blockSize < |tables[s]|
    ensures SlotOf(tables[s], blockSize, p) == SlotOf(tables[s], blockSize, q) ==> p == q
    ensures SlotOf(tables[s], blockSize, p) < |refs| * blockSize
  {
    TableInPool(free, refs, tables, s);
    DistinctSlots(tables[s], |refs|, blockSize, p, q);
  }

  lemma DistinctSlots(bt: seq<nat>, total: nat, blockSize: nat, p: nat, q: nat)
    requires Distinct(bt) && (forall k :: 0 <= k < |bt| ==> bt[k] < total) && blockSize > 0
    requires p / blockSize < |bt| && q / blockSize < |bt|
    ensures SlotOf(bt, blockSize, p) == SlotOf(bt, blockSize, q) ==> p == q
    ensures SlotOf(bt, blockSize, p) < total * blockSize
  {
    DistinctUnits(bt, total, blockSize, p / blockSize, p % blockSize, q / blockSize, q % blockSize);
    if SlotOf(bt, blockSize, p) == SlotOf(bt, blockSize, q) {
      SameParts(p, q, blockSize);
    }
  }

  lemma DistinctUnits(bt: seq<nat>, total: nat, blockSize: nat, i: nat, x: nat, j: nat, y: nat)
    requires Distinct(bt) && (forall k :: 0 <= k < |bt| ==> bt[k] < total)
    requires i < |bt| && j < |bt| && x < blockSize && y < blockSize
    ensures bt[i] * blockSize + x == bt[j] * blockSize + y ==> i == j && x == y
    ensures bt[i] * blockSize + x < total * blockSize
  {
    if bt[i] * blockSize + x == bt[j] * blockSize + y {
      SlotDecodes(blockSize, bt[i], x, bt[j], y);
      SameBlock(bt, i, j);
    }
    InPool(bt[i], x, blockSize, total);
  }

  lemma SameBlock(bt: seq<nat>, i: nat, j: nat)
    requires Distinct(bt) && i < |bt| && j < |bt| && bt[i] == bt[j]
    ensures i == j
  {
  }

  lemma InPool(b: nat, off: nat, blockSize: nat, n: nat)
    requires b < n && off < blockSize
    ensures b * blockSize + off < n * blockSize
  {
    MultipleBound(n - b, blockSize);
  }

  /** Slots of two sequences meet only at equal offsets of a block counted at least twice. */
  lemma SlotsMeet(free: seq<nat>, refs: seq<nat>, tables: Tables, s: nat, t: nat, blockSize: nat, p: nat, q: nat)
    requires Accounts(free, refs, tables) && s in tables && t in tables && s != t && blockSize > 0
    requires p / blockSize < |tables[s]| && q / blockSize < |tables[t]|
    requires SlotOf(tables[s], blockSize, p) == SlotOf(tables[t], blockSize, q)
    ensures tables[s][p / blockSize] == tables[t][q / blockSize] && p % blockSize == q % blockSize
    ensures refs[tables[s][p / blockSize]] >= 2 && tables[s][p / blockSize] in tables[t]
  {
    var b := tables[s][p / blockSize];
    SlotDecodes(blockSize, b, p % blockSize, tables[t][q / blockSize], q % blockSize);
    HeldIsCounted(free, refs, tables, s, b);
    assert {s, t} <= Holders(tables, b);
    assert |Holders(tables, b)| >= |{s, t}| by {
      assert Holders(tables, b) == {s, t} + (Holders(tables, b) - {s, t});
    }
  }
}
