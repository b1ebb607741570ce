/** The devmode engine's choice between chain heads: HandleBlockValid of
    examples/devmode_consensus/engine.go over a store of blocks. */
module ForkChoice {
  import opened Common
  import opened BlockIds

  type Store = map<BlockId, Block>

  /** Blocks are stored under their own non-null id, numbers drop by one along
      `previousId`, and the blocks without a predecessor are those at height 0. */
  ghost predicate WellFormed(store: Store) {
    forall id {:trigger BlockOk(store, id)} :: id in store ==> BlockOk(store, id)
  }

  ghost predicate BlockOk(store: Store, id: BlockId)
    requires id in store
  {
    var b := store[id];
    && b.blockId == id && id != NULL_ID
    && (b.blockNum == 0 <==> b.previousId == NULL_ID)
    && (b.blockNum > 0 ==> b.previousId in store && store[b.previousId].blockNum == b.blockNum - 1)
  }

  /** What the validator returns for an id is the block with that id. */
  predicate KeyedById(store: Store) {
    forall id :: id in store ==> store[id].blockId == id
  }

  ghost predicate Has(store: Store, b: Block) {
    b.blockId in store && store[b.blockId] == b
  }

  // ---- The order on ids --------------------------------------------------

  /** bytes.Compare(a, b) < 0. */
  predicate Less(a: seq<Byte>, b: seq<Byte>) {
    b != [] && (a == [] || a[0] < b[0] || (a[0] == b[0] && Less(a[1..], b[1..])))
  }

  lemma {:induction false} LessIsTotal(a: seq<Byte>, b: seq<Byte>)
    ensures Less(a, b) ==> a != b && !Less(b, a)
    ensures Less(a, b) || a == b || Less(b, a)
  {
    if a != [] && b != [] {
      LessIsTotal(a[1..], b[1..]);
      if a[0] == b[0] && a[1..] == b[1..] {
        assert a == [a[0]] + a[1..] && b == [b[0]] + b[1..];
      }
    }
  }

  lemma {:induction false} LessIsTransitive(a: seq<Byte>, b: seq<Byte>, c: seq<Byte>)
    requires Less(a, b) && Less(b, c)
    ensures Less(a, c)
  {
    if a != [] && a[0] == b[0] == c[0] {
      LessIsTransitive(a[1..], b[1..], c[1..]);
    }
  }

  /** The first difference decides; a proper prefix is smaller. */
  ghost predicate DecidedAt(a: seq<Byte>, b: seq<Byte>, i: nat) {
    i <= |a| && i < |b| && a[..i] == b[..i] && (i == |a| || a[i] < b[i])
  }

  lemma {:induction false} LessIsFirstDifference(a: seq<Byte>, b: seq<Byte>)
    ensures Less(a, b) <==> exists i: nat :: DecidedAt(a, b, i)
  {
    if Less(a, b) {
      if a == [] || a[0] < b[0] {
        assert DecidedAt(a, b, 0);
      } else {
        LessIsFirstDifference(a[1..], b[1..]);
        var i: nat :| DecidedAt(a[1..], b[1..], i);
        assert a[..i + 1] == [a[0]] + a[1..][..i] && b[..i + 1] == [b[0]] + b[1..][..i];
        assert DecidedAt(a, b, i + 1);
      }
    } else if i: nat :| DecidedAt(a, b, i) {
      assert i > 0 && a[..i][0] == b[..i][0];
      LessIsFirstDifference(a[1..], b[1..]);
      assert a[1..][..i - 1] == a[..i][1..] && b[1..][..i - 1] == b[..i][1..];
      assert DecidedAt(a[1..], b[1..], i - 1);
    }
  }

  /** The lexicographic order by (height, id). */
  ghost predicate Below(a: Block, b: Block) {
    a.blockNum < b.blockNum || (a.blockNum == b.blockNum && Less(a.blockId, b.blockId))
  }

  lemma BelowIsTransitive(a: Block, b: Block, c: Block)
    requires Below(a, b) && Below(b, c)
    ensures Below(a, c)
  {
    if a.blockNum == b.blockNum == c.blockNum {
      LessIsTransitive(a.blockId, b.blockId, c.blockId);
    }
  }

  // ---- Chains ------------------------------------------------------------

  /** The block at height `h` on the chain that ends in `b`. */
  ghost function Ancestor(store: Store, b: Block, h: nat): (a: Block)
    requires WellFormed(store) && Has(store, b) && h <= b.blockNum
    ensures Has(store, a) && a.blockNum == h
    decreases b.blockNum
  {
    assert BlockOk(store, b.blockId);
    if b.blockNum == h then b
    else
      assert BlockOk(store, b.previousId);
      Ancestor(store, store[b.previousId], h)
  }

  /** `path` follows previousId links through the store. */
  ghost predicate IsChain(store: Store, path: seq<Block>) {
    && |path| > 0 && Has(store, path[0])
    && forall i :: 0 <= i < |path| - 1 ==> path[i].previousId in store && path[i + 1] == store[path[i].previousId]
  }

  /** A chain from `b` has exactly one block at each height: any chain that
      reaches height h ends in Ancestor(b, h). */
  lemma {:induction false} AncestorIsUnique(store: Store, path: seq<Block>)
    requires WellFormed(store) && IsChain(store, path)
    ensures var last := path[|path| - 1];
            last.blockNum <= path[0].blockNum && last == Ancestor(store, path[0], last.blockNum)
    decreases |path|
  {
    assert BlockOk(store, path[0].blockId);
    if |path| > 1 {
      var next := path[1];
      assert next == store[path[0].previousId];
      assert BlockOk(store, path[0].previousId);
      var rest := path[1..];
      assert forall i :: 0 <= i < |rest| ==> rest[i] == path[i + 1];
      AncestorIsUnique(store, rest);
    }
  }

  // ---- The decision --------------------------------------------------------

  datatype Decision = Commit | Ignore | Panic

  /** The block replaces the head: it is higher, or its id is greater than that
      of the head's ancestor-or-self at its own height. */
  ghost predicate Improves(store: Store, head: Block, b: Block)
    requires WellFormed(store) && Has(store, head)
  {
    b.blockNum > head.blockNum || Less(Ancestor(store, head, b.blockNum).blockId, b.blockId)
  }

  /** The n-th predecessor of `b` in any store, if getBlock finds it. */
  ghost function Walk(store: Store, b: Block, n: nat): (w: Option<Block>) {
    if n == 0 then Some(b)
    else
      var w := Walk(store, b, n - 1);
      if w.Some? && w.value.previousId in store then Some(store[w.value.previousId]) else None
  }

  /** The walk down to height `h` stops at the n-th predecessor, found or missing. */
  ghost predicate WalkEnds(store: Store, b: Block, h: nat, n: nat) {
    n > 0 && (Walk(store, b, n).None? || Walk(store, b, n).value.blockNum == h)
  }

  ghost predicate WalkTerminates(store: Store, b: Block, h: nat) {
    exists n: nat :: WalkEnds(store, b, h, n)
  }

  ghost function FirstEnd(store: Store, b: Block, h: nat): (n: nat)
    requires WalkTerminates(store, b, h)
    ensures WalkEnds(store, b, h, n) && forall m: nat :: m < n ==> !WalkEnds(store, b, h, m)
  {
    var n: nat :| WalkEnds(store, b, h, n);
    FirstEndUpTo(store, b, h, 0, n)
  }

  ghost function FirstEndUpTo(store: Store, b: Block, h: nat, i: nat, n: nat): (m: nat)
    requires i <= n && WalkEnds(store, b, h, n) && forall m: nat :: m < i ==> !WalkEnds(store, b, h, m)
    ensures WalkEnds(store, b, h, m) && forall k: nat :: k < m ==> !WalkEnds(store, b, h, k)
    decreases n - i
  {
    if WalkEnds(store, b, h, i) then i else FirstEndUpTo(store, b, h, i + 1, n)
  }

  /** In a well-formed store every step of the walk finds the ancestor one lower. */
  lemma {:induction false} WalkIsAncestor(store: Store, b: Block, n: nat)
    requires WellFormed(store) && Has(store, b) && n <= b.blockNum
    ensures Walk(store, b, n) == Some(Ancestor(store, b, b.blockNum - n))
    decreases n
  {
    if n > 0 {
      WalkIsAncestor(store, b, n - 1);
      var w := Ancestor(store, b, b.blockNum - n + 1);
      assert BlockOk(store, w.blockId) && BlockOk(store, w.previousId);
      AncestorOfAncestor(store, b, b.blockNum - n + 1, b.blockNum - n);
    }
  }

  lemma {:induction false} AncestorOfAncestor(store: Store, b: Block, h: nat, l: nat)
    requires WellFormed(store) && Has(store, b) && l <= h <= b.blockNum
    ensures Ancestor(store, Ancestor(store, b, h), l) == Ancestor(store, b, l)
    decreases b.blockNum
  {
    if b.blockNum > h {
      assert BlockOk(store, b.blockId) && BlockOk(store, b.previousId);
      AncestorOfAncestor(store, store[b.previousId], h, l);
    }
  }

  /** So the walk ends, after as many steps as the heights differ, on the ancestor. */
  lemma WellFormedWalkEnds(store: Store, b: Block, h: nat)
    requires WellFormed(store) && Has(store, b) && h < b.blockNum
    ensures WalkTerminates(store, b, h) && FirstEnd(store, b, h) == b.blockNum - h
    ensures Walk(store, b, b.blockNum - h) == Some(Ancestor(store, b, h))
  {
    WalkIsAncestor(store, b, b.blockNum - h);
    assert WalkEnds(store, b, h, b.blockNum - h);
    forall m: nat | m < b.blockNum - h
      ensures !WalkEnds(store, b, h, m)
    {
      WalkIsAncestor(store, b, m);
    }
  }

  /** `ids` are the ids the first `n` steps of the walk look up. */
  ghost predicate IsTrail(store: Store, b: Block, n: nat, ids: seq<BlockId>) {
    && |ids| == n
    && forall i: nat :: i < n ==> Walk(store, b, i).Some? && ids[i] == Walk(store, b, i).value.previousId
  }

  lemma WellFormedTrail(store: Store, b: Block, n: nat, ids: seq<BlockId>)
    requires WellFormed(store) && Has(store, b) && n <= b.blockNum && IsTrail(store, b, n, ids)
    ensures NULL_ID !in ids && forall id :: id in ids ==> id in store
  {
    forall i: nat | i < n
      ensures ids[i] != NULL_ID && ids[i] in store
    {
      WalkIsAncestor(store, b, i);
      var w := Ancestor(store, b, b.blockNum - i);
      assert BlockOk(store, w.blockId) && BlockOk(store, w.previousId);
    }
  }

  /** The loop of HandleBlockValid that walks down from the head to height `h`. */
  method WalkDown(store: Store, chainHead: Block, h: nat) returns (end: Option<Block>, ids: seq<BlockId>)
    requires h != chainHead.blockNum && WalkTerminates(store, chainHead, h)
    ensures end == Walk(store, chainHead, FirstEnd(store, chainHead, h))
    ensures IsTrail(store, chainHead, FirstEnd(store, chainHead, h), ids)
  {
    var chainBlock := chainHead;
    ids := [];
    ghost var n := FirstEnd(store, chainHead, h);
    while chainBlock.blockNum != h
      invariant |ids| <= n && Walk(store, chainHead, |ids|) == Some(chainBlock)
      invariant chainBlock.blockNum == h <==> |ids| == n
      invariant IsTrail(store, chainHead, |ids|, ids)
      decreases n - |ids|
    {
      ghost var i := |ids|;
      assert Walk(store, chainHead, i + 1).None? <==> chainBlock.previousId !in store;
      ids := ids + [chainBlock.previousId];
      if chainBlock.previousId !in store {
        assert WalkEnds(store, chainHead, h, i + 1);
        return None, ids;
      }
      chainBlock := store[chainBlock.previousId];
      assert WalkEnds(store, chainHead, h, i + 1) <==> chainBlock.blockNum == h;
    }
    end := Some(chainBlock);
  }

  /** HandleBlockValid on any store on which its walk, if it makes one, ends: a block
      that is not found, or a predecessor missing on the way, is a panic.  `lookups` are
      the ids passed to getBlock, in order. */
  method HandleBlockValid(store: Store, chainHead: Block, blockId: BlockId)
    returns (d: Decision, lookups: seq<BlockId>)
    requires blockId in store && store[blockId].blockNum < chainHead.blockNum ==>
               WalkTerminates(store, chainHead, store[blockId].blockNum)
    ensures blockId !in store ==> d == Panic && lookups == [blockId]
    ensures blockId in store && chainHead.blockNum <= store[blockId].blockNum ==>
              && lookups == [blockId]
              && d == if store[blockId].blockNum > chainHead.blockNum || Less(chainHead.blockId, store[blockId].blockId)
                      then Commit else Ignore
    ensures blockId in store && store[blockId].blockNum < chainHead.blockNum ==>
              var n := FirstEnd(store, chainHead, store[blockId].blockNum);
              var end := Walk(store, chainHead, n);
              && d == (if end.None? then Panic
                       else if Less(end.value.blockId, store[blockId].blockId) then Commit else Ignore)
              && |lookups| == 1 + n && lookups[0] == blockId && IsTrail(store, chainHead, n, lookups[1..])
    ensures WellFormed(store) && Has(store, chainHead) && blockId in store ==>
              && d == (if Improves(store, chainHead, store[blockId]) then Commit else Ignore)
              && (store[blockId].blockNum <= chainHead.blockNum ==>
                    (d == Commit <==>
                     Less(Ancestor(store, chainHead, store[blockId].blockNum).blockId, store[blockId].blockId)))
              && NULL_ID !in lookups && forall id :: id in lookups ==> id in store
  {
    lookups := [blockId];
    if blockId !in store {
      return Panic, lookups;
    }
    var block := store[blockId];
    assert WellFormed(store) ==> BlockOk(store, blockId);
    var greater := Less(chainHead.blockId, block.blockId);
    if block.blockNum > chainHead.blockNum || (block.blockNum == chainHead.blockNum && greater) {
      d := Commit;
    } else if block.blockNum < chainHead.blockNum {
      var chainBlock, ids := WalkDown(store, chainHead, block.blockNum);
      lookups := lookups + ids;
      assert lookups[1..] == ids;
      if WellFormed(store) && Has(store, chainHead) {
        WellFormedWalkEnds(store, chainHead, block.blockNum);
        WellFormedTrail(store, chainHead, |ids|, ids);
      }
      if chainBlock.None? {
        return Panic, lookups;
      }
      d := if Less(chainBlock.value.blockId, block.blockId) then Commit else Ignore;
    } else {
      d := Ignore;
    }
  }

  /** The head after `b` has been handled and a commit, if any, applied. */
  ghost function Choose(store: Store, head: Block, b: Block): (h: Block)
    requires WellFormed(store) && Has(store, head) && Has(store, b)
    ensures Has(store, h)
  {
    if Improves(store, head, b) then b else head
  }

  /** A block on the current chain is never committed again. */
  lemma OwnChainIsIgnored(store: Store, head: Block, h: nat)
    requires WellFormed(store) && Has(store, head) && h <= head.blockNum
    ensures !Improves(store, head, Ancestor(store, head, h))
  {
    var a := Ancestor(store, head, h);
    LessIsTotal(a.blockId, a.blockId);
  }

  /** A commit raises the head's height, or strictly raises the id the chain
      holds at the committed height. */
  lemma CommitRaises(store: Store, head: Block, b: Block)
    requires WellFormed(store) && Has(store, head) && Has(store, b) && Choose(store, head, b) != head
    ensures var head' := Choose(store, head, b);
            head'.blockNum > head.blockNum
            || (head'.blockNum <= head.blockNum
                && Less(Ancestor(store, head, b.blockNum).blockId, Ancestor(store, head', b.blockNum).blockId))
  {
  }

  // ---- Convergence ---------------------------------------------------------

  /** Handle the blocks one after the other, each commit applied before the next. */
  ghost function ChooseAll(store: Store, head: Block, bs: seq<Block>): (h: Block)
    requires WellFormed(store) && Has(store, head) && forall b :: b in bs ==> Has(store, b)
    ensures Has(store, h)
    decreases |bs|
  {
    if bs == [] then head else Choose(store, ChooseAll(store, head, bs[..|bs| - 1]), bs[|bs| - 1])
  }

  /** Heights never decrease along `bs`, and start no lower than the head. */
  ghost predicate Rising(head: Block, bs: seq<Block>) {
    && (forall i :: 0 <= i < |bs| ==> head.blockNum <= bs[i].blockNum)
    && forall i, j :: 0 <= i < j < |bs| ==> bs[i].blockNum <= bs[j].blockNum
  }

  ghost predicate IsMaximum(m: Block, head: Block, bs: seq<Block>) {
    && (m == head || m in bs)
    && (m == head || Below(head, m))
    && forall b :: b in bs ==> m == b || Below(b, m)
  }

  /** The head and the blocks have a maximum. */
  lemma {:induction false} MaximumExists(head: Block, bs: seq<Block>) returns (m: Block)
    requires forall b, c :: (b == head || b in bs) && (c == head || c in bs) && b.blockId == c.blockId ==> b == c
    ensures IsMaximum(m, head, bs)
    decreases |bs|
  {
    if bs == [] {
      return head;
    }
    var n := |bs| - 1;
    var front, b := bs[..n], bs[n];
    assert bs == front + [b];
    var m0 := MaximumExists(head, front);
    LessIsTotal(m0.blockId, b.blockId);
    m := if Below(m0, b) then b else m0;
    MaximumExtends(head, front, b, m0, m);
  }

  lemma MaximumExtends(head: Block, front: seq<Block>, b: Block, m: Block, m': Block)
    requires IsMaximum(m, head, front)
    requires (m' == m || (m' == b && Below(m, b))) && (m' == b || Below(b, m))
    ensures IsMaximum(m', head, front + [b])
  {
    if m' != m {
      if m != head {
        BelowIsTransitive(head, m, m');
      }
      forall x | x in front && x != m
        ensures Below(x, m')
      {
        BelowIsTransitive(x, m, m');
      }
    }
  }

  /** Nothing handled after the last time `m` was, or at all if it never was, beats m's
      ancestor at its own height. */
  ghost predicate Undisturbed(store: Store, m: Block, bs: seq<Block>)
    requires WellFormed(store) && Has(store, m)
  {
    forall j :: 0 <= j < |bs| && bs[j] != m && (forall k :: j < k < |bs| ==> bs[k] != m) ==> !Improves(store, m, bs[j])
  }

  lemma UndisturbedSnoc(store: Store, m: Block, bs: seq<Block>, b: Block)
    requires WellFormed(store) && Has(store, m)
    ensures Undisturbed(store, m, bs + [b])
            <==> b == m || (Undisturbed(store, m, bs) && !Improves(store, m, b))
  {
    var all, n := bs + [b], |bs|;
    assert all[n] == b && forall j :: 0 <= j < n ==> all[j] == bs[j];
    if b != m && Undisturbed(store, m, all) {
      assert !Improves(store, m, all[n]);
      forall j | 0 <= j < n && bs[j] != m && (forall k :: j < k < n ==> bs[k] != m)
        ensures !Improves(store, m, bs[j])
      {
        assert all[j] == bs[j] && forall k :: j < k < |all| ==> all[k] != m;
      }
    }
    if b != m && Undisturbed(store, m, bs) {
      forall j | 0 <= j < |all| && all[j] != m && (forall k :: j < k < |all| ==> all[k] != m)
        ensures j < n ==> !Improves(store, m, all[j])
      {
        if j < n {
          assert forall k :: j < k < n ==> bs[k] == all[k];
          assert bs[j] == all[j];
        }
      }
    }
  }

  /** Above the head and the blocks, whether it is one of them or not. */
  ghost predicate Dominates(m: Block, head: Block, bs: seq<Block>) {
    (m == head || Below(head, m)) && forall b :: b in bs ==> m == b || Below(b, m)
  }

  lemma HigherImproves(store: Store, head: Block, m: Block)
    requires WellFormed(store) && Has(store, head) && Below(head, m)
    ensures Improves(store, head, m)
  {
  }

  lemma {:induction false} ChooseAllIsOneOf(store: Store, head: Block, bs: seq<Block>)
    requires WellFormed(store) && Has(store, head) && forall b :: b in bs ==> Has(store, b)
    ensures ChooseAll(store, head, bs) == head || ChooseAll(store, head, bs) in bs
    decreases |bs|
  {
    if bs != [] {
      ChooseAllIsOneOf(store, head, bs[..|bs| - 1]);
    }
  }

  lemma {:induction false} EndsOnDominatorIff(store: Store, head: Block, bs: seq<Block>, m: Block)
    requires WellFormed(store) && Has(store, head) && Has(store, m) && forall b :: b in bs ==> Has(store, b)
    requires Dominates(m, head, bs)
    ensures ChooseAll(store, head, bs) == m <==> (m == head || m in bs) && Undisturbed(store, m, bs)
    decreases |bs|
  {
    if bs != [] {
      var front, b := bs[..|bs| - 1], bs[|bs| - 1];
      assert bs == front + [b];
      EndsOnDominatorIff(store, head, front, m);
      UndisturbedSnoc(store, m, front, b);
      var before := ChooseAll(store, head, front);
      if b == m && before != m {
        ChooseAllIsOneOf(store, head, front);
        HigherImproves(store, before, m);
      }
    }
  }

  /** For any blocks in any order: the engine ends on the maximum by (height, id) exactly
      if nothing handled after it, the last time it was handled, beats its ancestor. */
  lemma PicksMaximumIff(store: Store, head: Block, bs: seq<Block>, m: Block)
    requires WellFormed(store) && Has(store, head) && forall b :: b in bs ==> Has(store, b)
    requires IsMaximum(m, head, bs)
    ensures Has(store, m) && (ChooseAll(store, head, bs) == m <==> Undisturbed(store, m, bs))
  {
    EndsOnDominatorIff(store, head, bs, m);
  }

  ghost predicate SameBlocks(bs: seq<Block>, cs: seq<Block>) {
    forall b :: b in bs <==> b in cs
  }

  lemma SameBlocksSameMaximum(head: Block, bs: seq<Block>, cs: seq<Block>, m: Block)
    requires SameBlocks(bs, cs) && IsMaximum(m, head, bs)
    ensures IsMaximum(m, head, cs)
  {
  }

  /** Two orders of the same blocks both end on the maximum exactly if both leave it
      undisturbed. */
  lemma OrdersAgreeOnMaximumIff(store: Store, head: Block, bs: seq<Block>, cs: seq<Block>, m: Block)
    requires WellFormed(store) && Has(store, head) && forall b :: b in bs ==> Has(store, b)
    requires SameBlocks(bs, cs) && IsMaximum(m, head, bs)
    ensures Has(store, m)
    ensures ChooseAll(store, head, bs) == m && ChooseAll(store, head, cs) == m
            <==> Undisturbed(store, m, bs) && Undisturbed(store, m, cs)
  {
    SameBlocksSameMaximum(head, bs, cs, m);
    PicksMaximumIff(store, head, bs, m);
    PicksMaximumIff(store, head, cs, m);
  }

  // ---- When order does not matter --------------------------------------------

  /** No block of `bs` improves on `m`. */
  ghost predicate Unbeaten(store: Store, m: Block, bs: seq<Block>)
    requires WellFormed(store) && Has(store, m)
  {
    forall b :: b in bs ==> !Improves(store, m, b)
  }

  ghost predicate EndsOn(store: Store, head: Block, bs: seq<Block>, m: Block) {
    && WellFormed(store) && Has(store, head) && (forall b :: b in bs ==> Has(store, b))
    && ChooseAll(store, head, bs) == m
  }

  /** The same blocks, each as often. */
  ghost predicate Reorders(bs: seq<Block>, cs: seq<Block>) {
    multiset(bs) == multiset(cs)
  }

  ghost predicate EveryOrderEndsOn(store: Store, head: Block, bs: seq<Block>, h: Block) {
    forall cs :: Reorders(bs, cs) ==> EndsOn(store, head, cs, h)
  }

  /** The greatest of the blocks, the head apart. */
  ghost predicate IsGreatest(m: Block, bs: seq<Block>) {
    m in bs && forall b :: b in bs ==> m == b || Below(b, m)
  }

  lemma ReordersSameBlocks(bs: seq<Block>, cs: seq<Block>)
    requires Reorders(bs, cs)
    ensures SameBlocks(bs, cs)
  {
    forall b
      ensures b in bs <==> b in cs
    {
      assert b in bs <==> b in multiset(bs);
      assert b in cs <==> b in multiset(cs);
    }
  }

  lemma {:induction false} UnbeatenStays(store: Store, head: Block, bs: seq<Block>)
    requires WellFormed(store) && Has(store, head) && forall b :: b in bs ==> Has(store, b)
    requires Unbeaten(store, head, bs)
    ensures ChooseAll(store, head, bs) == head
    decreases |bs|
  {
    if bs != [] {
      UnbeatenStays(store, head, bs[..|bs| - 1]);
    }
  }

  lemma {:induction false} ChooseAllConcat(store: Store, head: Block, bs: seq<Block>, cs: seq<Block>)
    requires WellFormed(store) && Has(store, head)
    requires (forall b :: b in bs ==> Has(store, b)) && (forall b :: b in cs ==> Has(store, b))
    ensures ChooseAll(store, head, bs + cs) == ChooseAll(store, ChooseAll(store, head, bs), cs)
    decreases |cs|
  {
    if cs == [] {
      assert bs + cs == bs;
    } else {
      var n := |cs| - 1;
      ChooseAllConcat(store, head, bs, cs[..n]);
      assert bs + cs == (bs + cs[..n]) + [cs[n]];
      ChooseAllAppend(store, head, bs + cs[..n], cs[n]);
      ChooseAllAppend(store, ChooseAll(store, head, bs), cs[..n], cs[n]);
      assert cs == cs[..n] + [cs[n]];
    }
  }

  /** Handling the greatest block last ends on it, unless the head is still the old one
      and not improved on by it. */
  lemma GreatestLast(store: Store, head: Block, bs: seq<Block>, m: Block)
    requires WellFormed(store) && Has(store, head) && Has(store, m) && forall b :: b in bs ==> Has(store, b)
    requires forall b :: b in bs ==> m == b || Below(b, m)
    requires ChooseAll(store, head, bs) in bs || Improves(store, head, m) || head == m
    ensures ChooseAll(store, head, bs + [m]) == m
  {
    ChooseAllAppend(store, head, bs, m);
    ChooseAllIsOneOf(store, head, bs);
    var x := ChooseAll(store, head, bs);
    if x != m && x in bs {
      HigherImproves(store, x, m);
    }
  }

  lemma Improver(store: Store, head: Block, bs: seq<Block>) returns (b: Block)
    requires WellFormed(store) && Has(store, head) && !Unbeaten(store, head, bs)
    ensures b in bs && Improves(store, head, b)
  {
    b :| b in bs && Improves(store, head, b);
  }

  /** The blocks with one occurrence of `b` taken out. */
  lemma TakeOut(bs: seq<Block>, b: Block) returns (rest: seq<Block>)
    requires b in bs
    ensures multiset(bs) == multiset(rest) + multiset{b} && |rest| == |bs| - 1
    ensures forall x :: x in rest ==> x in bs
    ensures forall x :: x in bs && x != b ==> x in rest
  {
    var i :| 0 <= i < |bs| && bs[i] == b;
    rest := bs[..i] + bs[i + 1..];
    assert bs == bs[..i] + [b] + bs[i + 1..];
  }

  lemma ReordersWithEnds(bs: seq<Block>, rest: seq<Block>, others: seq<Block>, b: Block, m: Block)
    requires multiset(bs) == multiset(rest) + multiset{m} && multiset(rest) == multiset(others) + multiset{b}
    ensures Reorders(bs, [b] + others + [m])
  {
    assert multiset([b] + others) == multiset(rest);
  }

  /** Once a block has replaced the head, the head is one of the blocks. */
  lemma ImproverFirst(store: Store, head: Block, b: Block, others: seq<Block>)
    requires WellFormed(store) && Has(store, head) && Has(store, b) && forall x :: x in others ==> Has(store, x)
    requires Improves(store, head, b)
    ensures ChooseAll(store, head, [b] + others) in [b] + others
  {
    ChooseAllAppend(store, head, [], b);
    assert [] + [b] == [b];
    ChooseAllConcat(store, head, [b], others);
    ChooseAllIsOneOf(store, b, others);
  }

  /** If some block improves on the head, some order ends on the greatest. */
  lemma SomeOrderEndsOnGreatest(store: Store, head: Block, bs: seq<Block>, m: Block) returns (cs: seq<Block>)
    requires WellFormed(store) && Has(store, head) && forall b :: b in bs ==> Has(store, b)
    requires IsGreatest(m, bs) && !Unbeaten(store, head, bs)
    ensures Reorders(bs, cs) && EndsOn(store, head, cs, m)
  {
    var b := Improver(store, head, bs);
    var rest := TakeOut(bs, m);
    if b == m {
      cs := rest + [m];
      GreatestLast(store, head, rest, m);
    } else {
      var others := TakeOut(rest, b);
      cs := [b] + others + [m];
      ReordersWithEnds(bs, rest, others, b, m);
      ImproverFirst(store, head, b, others);
      GreatestLast(store, head, [b] + others, m);
    }
  }

  /** If some block improves on the greatest, some order does not end on the greatest. */
  lemma SomeOrderBeatsGreatest(store: Store, head: Block, bs: seq<Block>, m: Block) returns (cs: seq<Block>)
    requires WellFormed(store) && Has(store, head) && forall b :: b in bs ==> Has(store, b)
    requires IsGreatest(m, bs) && !Unbeaten(store, m, bs)
    ensures Reorders(bs, cs) && !EndsOn(store, head, cs, m)
  {
    var c := Improver(store, m, bs);
    LessIsTotal(m.blockId, m.blockId);
    var rest := TakeOut(bs, c);
    cs := rest + [c];
    ChooseAllAppend(store, head, rest, c);
  }

  ghost function Copies(m: Block, n: nat): (ms: seq<Block>)
    ensures |ms| == n && forall b :: b in ms ==> b == m
  {
    if n == 0 then [] else Copies(m, n - 1) + [m]
  }

  lemma InsertBetween(xs: seq<Block>, m: Block, ys: seq<Block>)
    ensures multiset(xs + [m] + ys) == multiset(xs + ys) + multiset{m}
  {
  }

  /** The blocks with `m` as often as it occurs, and then the others. */
  lemma {:induction false} PutFirst(bs: seq<Block>, m: Block) returns (n: nat, rest: seq<Block>)
    ensures Reorders(bs, Copies(m, n) + rest) && m !in rest
    decreases |bs|
  {
    if m !in bs {
      n, rest := 0, bs;
      assert Copies(m, n) + rest == bs;
    } else {
      var others := TakeOut(bs, m);
      n, rest := PutFirst(others, m);
      InsertBetween(Copies(m, n), m, rest);
      n := n + 1;
    }
  }

  /** If the greatest block does not improve on another head, some order does not end
      on it. */
  lemma SomeOrderMissesGreatest(store: Store, head: Block, bs: seq<Block>, m: Block) returns (cs: seq<Block>)
    requires WellFormed(store) && Has(store, head) && forall b :: b in bs ==> Has(store, b)
    requires m in bs && !Improves(store, head, m) && head != m
    ensures Reorders(bs, cs) && !EndsOn(store, head, cs, m)
  {
    var n, rest := PutFirst(bs, m);
    cs := Copies(m, n) + rest;
    ReordersSameBlocks(bs, cs);
    assert forall b :: b in rest ==> b in cs;
    UnbeatenStays(store, head, Copies(m, n));
    ChooseAllConcat(store, head, Copies(m, n), rest);
    ChooseAllIsOneOf(store, head, rest);
  }

  lemma {:induction false} GreatestWins(store: Store, head: Block, bs: seq<Block>, m: Block)
    requires WellFormed(store) && Has(store, head) && forall b :: b in bs ==> Has(store, b)
    requires IsGreatest(m, bs) && Improves(store, head, m) && Unbeaten(store, m, bs)
    ensures EndsOn(store, head, bs, m)
  {
    var i :| 0 <= i < |bs| && bs[i] == m;
    var before, after := bs[..i], bs[i + 1..];
    assert bs == (before + [m]) + after;
    GreatestLast(store, head, before, m);
    ChooseAllConcat(store, head, before + [m], after);
    UnbeatenStays(store, m, after);
  }

  /** For any blocks whatever, the final head is independent of the order in which they
      are handled exactly if none improves on the head, or the greatest of them does and
      none improves on that. */
  lemma OrderIndependentIff(store: Store, head: Block, bs: seq<Block>, m: Block)
    requires WellFormed(store) && Has(store, head) && forall b :: b in bs ==> Has(store, b)
    requires IsGreatest(m, bs)
    ensures (exists h :: EveryOrderEndsOn(store, head, bs, h))
            <==> Unbeaten(store, head, bs) || (Improves(store, head, m) && Unbeaten(store, m, bs))
  {
    if Unbeaten(store, head, bs) || (Improves(store, head, m) && Unbeaten(store, m, bs)) {
      var h := if Unbeaten(store, head, bs) then head else m;
      forall cs | Reorders(bs, cs)
        ensures EndsOn(store, head, cs, h)
      {
        ReordersSameBlocks(bs, cs);
        if Unbeaten(store, head, bs) {
          UnbeatenStays(store, head, cs);
        } else {
          GreatestWins(store, head, cs, m);
        }
      }
      assert EveryOrderEndsOn(store, head, bs, h);
    } else if h :| EveryOrderEndsOn(store, head, bs, h) {
      var cs := SomeOrderEndsOnGreatest(store, head, bs, m);
      assert EndsOn(store, head, cs, h) && h == m;
      var ds;
      if Unbeaten(store, m, bs) {
        ds := SomeOrderMissesGreatest(store, head, bs, m);
      } else {
        ds := SomeOrderBeatsGreatest(store, head, bs, m);
      }
      assert false;
    }
  }

  /** Every order ends on the maximum of head and blocks exactly if none of them improves
      on it. */
  lemma EveryOrderPicksMaximumIff(store: Store, head: Block, bs: seq<Block>, m: Block)
    requires WellFormed(store) && Has(store, head) && forall b :: b in bs ==> Has(store, b)
    requires IsMaximum(m, head, bs)
    ensures Has(store, m) && (EveryOrderEndsOn(store, head, bs, m) <==> Unbeaten(store, m, bs))
  {
    if Unbeaten(store, m, bs) {
      forall cs | Reorders(bs, cs)
        ensures EndsOn(store, head, cs, m)
      {
        ReordersSameBlocks(bs, cs);
        SameBlocksSameMaximum(head, bs, cs, m);
        PicksMaximumIff(store, head, cs, m);
        assert forall j :: 0 <= j < |cs| ==> cs[j] in cs;
      }
    } else {
      var c := Improver(store, m, bs);
      LessIsTotal(m.blockId, m.blockId);
      var rest := TakeOut(bs, c);
      ChooseAllAppend(store, head, rest, c);
      assert Reorders(bs, rest + [c]);
    }
  }

  lemma RisingIsUndisturbed(store: Store, head: Block, bs: seq<Block>, m: Block)
    requires WellFormed(store) && Has(store, m) && Rising(head, bs) && IsMaximum(m, head, bs)
    ensures Undisturbed(store, m, bs)
  {
    forall j | 0 <= j < |bs| && bs[j] != m && (forall k :: j < k < |bs| ==> bs[k] != m)
      ensures !Improves(store, m, bs[j])
    {
      assert bs[j] in bs && Below(bs[j], m);
      if m != head {
        var i :| 0 <= i < |bs| && bs[i] == m;
        assert i < j;
      }
      LessIsTotal(bs[j].blockId, m.blockId);
    }
  }

  /** On blocks that do not fall below the current head, the engine picks the
      lexicographic maximum by (height, id) of the head and all the blocks. */
  lemma RisingBlocksPickMaximum(store: Store, head: Block, bs: seq<Block>)
    requires WellFormed(store) && Has(store, head) && Rising(head, bs)
    requires forall b :: b in bs ==> Has(store, b)
    ensures IsMaximum(ChooseAll(store, head, bs), head, bs)
  {
    var m := MaximumExists(head, bs);
    PicksMaximumIff(store, head, bs, m);
    RisingIsUndisturbed(store, head, bs, m);
  }

  lemma MaximumIsUnique(head: Block, bs: seq<Block>, cs: seq<Block>, m: Block, n: Block)
    requires (forall b :: b in bs <==> b in cs)
    requires IsMaximum(m, head, bs) && IsMaximum(n, head, cs)
    ensures m == n
  {
    if m != n {
      assert Below(m, n) && Below(n, m);
      LessIsTotal(m.blockId, n.blockId);
    }
  }

  /** Nodes that see the same blocks in any two rising orders end on the same
      head; in particular blocks of one height may come in any order. */
  lemma RisingOrdersAgree(store: Store, head: Block, bs: seq<Block>, cs: seq<Block>)
    requires WellFormed(store) && Has(store, head)
    requires forall b :: b in bs ==> Has(store, b)
    requires forall b :: b in bs <==> b in cs
    requires Rising(head, bs) && Rising(head, cs)
    ensures ChooseAll(store, head, bs) == ChooseAll(store, head, cs)
  {
    RisingBlocksPickMaximum(store, head, bs);
    RisingBlocksPickMaximum(store, head, cs);
    MaximumIsUnique(head, bs, cs, ChooseAll(store, head, bs), ChooseAll(store, head, cs));
  }

  /** Two different blocks that both improve on the head lead to the same head in
      either order iff the higher one's ancestor is not beaten by the lower one. */
  lemma OrderDoesNotMatterIff(store: Store, head: Block, a: Block, b: Block)
    requires WellFormed(store) && Has(store, head) && Has(store, a) && Has(store, b)
    requires Improves(store, head, a) && Improves(store, head, b) && a.blockNum <= b.blockNum && a != b
    ensures ChooseAll(store, head, [a, b]) == ChooseAll(store, head, [b, a])
       <==> a.blockNum == b.blockNum || !Less(Ancestor(store, b, a.blockNum).blockId, a.blockId)
  {
    TwoBlocks(store, head, a, b);
    TwoBlocks(store, head, b, a);
    LessIsTotal(a.blockId, b.blockId);
    assert a.blockId != b.blockId;
  }

  /** If at most one of them improves on the head, the orders agree iff the other
      does not improve on that one either. */
  lemma OrderWithOneImprovement(store: Store, head: Block, a: Block, b: Block)
    requires WellFormed(store) && Has(store, head) && Has(store, a) && Has(store, b)
    requires !(Improves(store, head, a) && Improves(store, head, b))
    ensures ChooseAll(store, head, [a, b]) == ChooseAll(store, head, [b, a])
       <==> && (Improves(store, head, a) ==> !Improves(store, a, b))
            && (Improves(store, head, b) ==> !Improves(store, b, a))
  {
    TwoBlocks(store, head, a, b);
    TwoBlocks(store, head, b, a);
  }

  lemma TwoBlocks(store: Store, head: Block, a: Block, b: Block)
    requires WellFormed(store) && Has(store, head) && Has(store, a) && Has(store, b)
    ensures ChooseAll(store, head, [a, b]) == Choose(store, Choose(store, head, a), b)
  {
    assert [] + [a] == [a] && [a] + [b] == [a, b];
    ChooseAllAppend(store, head, [], a);
    ChooseAllAppend(store, head, [a], b);
  }

  lemma ChooseAllAppend(store: Store, head: Block, bs: seq<Block>, b: Block)
    requires WellFormed(store) && Has(store, head) && Has(store, b) && forall x :: x in bs ==> Has(store, x)
    ensures ChooseAll(store, head, bs + [b]) == Choose(store, ChooseAll(store, head, bs), b)
  {
    assert (bs + [b])[..|bs|] == bs;
  }

  // ---- When the head can come back ------------------------------------------------

  /** Handling blocks of `bs` one after the other can lead away from one of them and back. */
  ghost predicate CanCycle(store: Store, bs: seq<Block>)
    requires WellFormed(store) && forall b :: b in bs ==> Has(store, b)
  {
    exists h, away, back :: Returns(store, bs, h, away, back)
  }

  ghost predicate Returns(store: Store, bs: seq<Block>, h: Block, away: seq<Block>, back: seq<Block>)
    requires WellFormed(store) && forall b :: b in bs ==> Has(store, b)
  {
    && h in bs && (forall b :: b in away ==> b in bs) && (forall b :: b in back ==> b in bs)
    && ChooseAll(store, h, away) != h && ChooseAll(store, ChooseAll(store, h, away), back) == h
  }

  /** A block of `bs` improves on a greater one. */
  ghost predicate StepsDown(store: Store, bs: seq<Block>)
    requires WellFormed(store) && forall b :: b in bs ==> Has(store, b)
  {
    exists m, c :: m in bs && c in bs && Below(c, m) && Improves(store, m, c)
  }

  lemma BelowIsTotal(store: Store, a: Block, b: Block)
    requires Has(store, a) && Has(store, b)
    ensures a == b || Below(a, b) || Below(b, a)
    ensures Below(a, b) ==> a != b && !Below(b, a)
  {
    LessIsTotal(a.blockId, b.blockId);
  }

  /** If no block steps down, the head only ever rises. */
  lemma {:induction false} HeadOnlyRises(store: Store, bs: seq<Block>, head: Block, cs: seq<Block>)
    requires WellFormed(store) && (forall b :: b in bs ==> Has(store, b)) && !StepsDown(store, bs)
    requires head in bs && forall c :: c in cs ==> c in bs
    ensures var h := ChooseAll(store, head, cs); h in bs && (h == head || Below(head, h))
    decreases |cs|
  {
    if cs != [] {
      var front, c := cs[..|cs| - 1], cs[|cs| - 1];
      HeadOnlyRises(store, bs, head, front);
      var before := ChooseAll(store, head, front);
      BelowIsTotal(store, before, c);
      if Improves(store, before, c) && before != c && before != head {
        BelowIsTransitive(head, before, c);
      }
    }
  }

  lemma StepDownAndBack(store: Store, bs: seq<Block>, m: Block, c: Block)
    requires WellFormed(store) && (forall b :: b in bs ==> Has(store, b)) && m in bs && c in bs
    requires Below(c, m) && Improves(store, m, c)
    ensures Returns(store, bs, m, [c], [m])
  {
    BelowIsTotal(store, c, m);
    assert [] + [c] == [c] && [] + [m] == [m];
    ChooseAllAppend(store, m, [], c);
    ChooseAllAppend(store, c, [], m);
    HigherImproves(store, c, m);
  }

  /** Among any blocks the head can leave one and come back to it exactly if one of them
      improves on a greater one. */
  lemma CanCycleIff(store: Store, bs: seq<Block>)
    requires WellFormed(store) && forall b :: b in bs ==> Has(store, b)
    ensures CanCycle(store, bs) <==> StepsDown(store, bs)
  {
    if StepsDown(store, bs) {
      var m, c :| m in bs && c in bs && Below(c, m) && Improves(store, m, c);
      StepDownAndBack(store, bs, m, c);
    } else if h, away, back :| Returns(store, bs, h, away, back) {
      HeadOnlyRises(store, bs, h, away);
      var gone := ChooseAll(store, h, away);
      HeadOnlyRises(store, bs, gone, back);
      BelowIsTotal(store, h, gone);
      assert false;
    }
  }

  // A fork: genesis, a block above it, and a longer branch with smaller ids.
  const GENESIS := Block([1], NULL_ID, [], 0, [], [])
  const SHORT := Block([5], [1], [], 1, [], [])
  const MIDDLE := Block([3], [1], [], 1, [], [])
  const LONG := Block([4], [3], [], 2, [], [])
  const FORK: Store := map[[1] := GENESIS, [5] := SHORT, [3] := MIDDLE, [4] := LONG]

  lemma ForkSteps()
    ensures WellFormed(FORK) && Has(FORK, GENESIS) && Has(FORK, SHORT) && Has(FORK, LONG)
    ensures Choose(FORK, GENESIS, SHORT) == SHORT && Choose(FORK, GENESIS, LONG) == LONG
    ensures Choose(FORK, SHORT, LONG) == LONG && Choose(FORK, LONG, SHORT) == SHORT
  {
    assert forall id :: id in FORK ==> BlockOk(FORK, id);
    assert Ancestor(FORK, LONG, 1) == MIDDLE;
    assert Less([3], [5]);
  }

  /** The two blocks n times in turn. */
  ghost function InTurn(n: nat): seq<Block> {
    if n == 0 then [] else InTurn(n - 1) + [LONG, SHORT]
  }

  /** In general the choice does not converge: on this store the same two blocks
      in two orders give two heads, and handling them in turn never settles. */
  lemma {:induction false} ForkChoiceCanCycle(n: nat)
    ensures WellFormed(FORK) && Has(FORK, GENESIS) && Has(FORK, SHORT) && Has(FORK, LONG)
    ensures ChooseAll(FORK, GENESIS, [SHORT, LONG]) == LONG && ChooseAll(FORK, GENESIS, [LONG, SHORT]) == SHORT
    ensures forall b :: b in InTurn(n) ==> Has(FORK, b)
    ensures ChooseAll(FORK, SHORT, InTurn(n)) == SHORT && ChooseAll(FORK, SHORT, InTurn(n) + [LONG]) == LONG
  {
    ForkSteps();
    TwoBlocks(FORK, GENESIS, SHORT, LONG);
    TwoBlocks(FORK, GENESIS, LONG, SHORT);
    if n > 0 {
      ForkChoiceCanCycle(n - 1);
      assert InTurn(n) == (InTurn(n - 1) + [LONG]) + [SHORT];
      ChooseAllAppend(FORK, SHORT, InTurn(n - 1) + [LONG], SHORT);
    }
    ChooseAllAppend(FORK, SHORT, InTurn(n), LONG);
  }
}
