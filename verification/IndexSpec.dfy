/** The index agrees with its simple specification: after a completed Sync it is a function
    of the canonical chain alone. */
module IndexSpec {
  import opened Chain
  import opened Erc20
  import opened StoreModel
  import opened SyncSpec
  import opened ChainInvariant
  import opened OnView

  /** The transfers of the blocks at heights [a, b), in order, none confirmed. */
  function Collect(txsOf: Hash -> seq<Transfer>, blocks: map<nat, Block>, a: nat, b: nat): seq<StoredTransfer>
    requires forall n :: a <= n < b ==> n in blocks
  {
    if b <= a then []
    else
      Collect(txsOf, blocks, a, b - 1)
      + Tag(b - 1, txsOf(blocks[b - 1].hash), false)
  }

  function Strip(ts: seq<StoredTransfer>): (r: seq<StoredTransfer>)
    ensures |r| == |ts|
  {
    seq(|ts|, i requires 0 <= i < |ts| => ts[i].(confirmed := false))
  }

  /** A transfer is confirmed exactly when its block is `depth` below the head. */
  function Stamp(ts: seq<StoredTransfer>, depth: nat, head: nat): (r: seq<StoredTransfer>)
    ensures |r| == |ts|
  {
    seq(|ts|, i requires 0 <= i < |ts| => ts[i].(confirmed := ts[i].block + depth <= head))
  }

  /** The index that a chain should have: its blocks, their transfers, their finality. */
  ghost function IndexOf(cfg: Config, v: View, txsOf: Hash -> seq<Transfer>): State
    requires |v| > 0
  {
    var blocks := Canon(v, cfg.startBlock);
    State(blocks, Stamp(Collect(txsOf, blocks, cfg.startBlock, |v|), cfg.confirmations, |v| - 1))
  }

  function TxsAt(v: View, txsOf: Hash -> seq<Transfer>): nat -> seq<Transfer> {
    (n: nat) => if n < |v| then txsOf(HashOf(v[n])) else []
  }

  /** `env` answers from `v`, where the logs of a block, and so its transfers, are a function
      of its hash. Any call may still fail. */
  ghost predicate Sees(cfg: Config, env: Env, v: View, txsOf: Hash -> seq<Transfer>) {
    Linked(v) && ServesHeaders(env, v) && ServesTransfers(cfg, env, v, TxsAt(v, txsOf))
  }

  /** Each Sync of a run sees one chain; the chains may differ from Sync to Sync. */
  ghost predicate AllSee(cfg: Config, envs: seq<Env>, vs: seq<View>, txsOf: Hash -> seq<Transfer>) {
    |envs| == |vs| && forall i :: 0 <= i < |envs| ==> Sees(cfg, envs[i], vs[i], txsOf)
  }

  /** The stored transfers are those of the stored blocks, in order, each once. */
  ghost predicate Faithful(cfg: Config, txsOf: Hash -> seq<Transfer>, s: State) {
    && Indexed(cfg.startBlock, s)
    && Strip(s.transfers)
       == Collect(txsOf, s.blocks, cfg.startBlock, Next(cfg.startBlock, s.blocks))
  }

  ghost predicate ConfirmedUpTo(cfg: Config, s: State, head: nat) {
    forall i :: 0 <= i < |s.transfers| && s.transfers[i].confirmed ==>
      s.transfers[i].block + cfg.confirmations <= head
  }

  lemma {:induction false} CollectSame(txsOf: Hash -> seq<Transfer>, xs: map<nat, Block>, ys: map<nat, Block>, a: nat, b: nat)
    requires forall n :: a <= n < b ==> n in xs && n in ys && xs[n] == ys[n]
    ensures Collect(txsOf, xs, a, b) == Collect(txsOf, ys, a, b)
  {
    if a < b {
      CollectSame(txsOf, xs, ys, a, b - 1);
    }
  }

  lemma {:induction false} CollectPrefix(txsOf: Hash -> seq<Transfer>, blocks: map<nat, Block>, a: nat, b: nat, c: nat)
    requires b <= c && forall n :: a <= n < c ==> n in blocks
    ensures Collect(txsOf, blocks, a, b) <= Collect(txsOf, blocks, a, c)
    decreases c
  {
    if b < c && a < c {
      CollectPrefix(txsOf, blocks, a, b, c - 1);
    }
  }

  lemma {:induction false} CollectExtended(txsOf: Hash -> seq<Transfer>, blocks: map<nat, Block>, b: Block, a: nat, n: nat)
    requires a <= n && forall k :: a <= k < n ==> k in blocks
    ensures Collect(txsOf, blocks[n := b], a, n + 1) == Collect(txsOf, blocks, a, n) + Tag(n, txsOf(b.hash), false)
  {
    CollectSame(txsOf, blocks, blocks[n := b], a, n);
  }

  lemma {:induction false} CollectRange(txsOf: Hash -> seq<Transfer>, blocks: map<nat, Block>, a: nat, b: nat)
    requires forall n :: a <= n < b ==> n in blocks
    ensures InRange(Collect(txsOf, blocks, a, b), a, b)
  {
    if a < b {
      CollectRange(txsOf, blocks, a, b - 1);
      var front := Collect(txsOf, blocks, a, b - 1);
      var ts := front + Tag(b - 1, txsOf(blocks[b - 1].hash), false);
      forall i | 0 <= i < |ts| ensures a <= ts[i].block < b && !ts[i].confirmed {
        if i < |front| {
          assert ts[i] == front[i];
        }
      }
    }
  }

  ghost predicate InRange(ts: seq<StoredTransfer>, a: nat, b: nat) {
    forall i :: 0 <= i < |ts| ==> a <= ts[i].block < b && !ts[i].confirmed
  }

  lemma {:induction false} StripAppended(ts: seq<StoredTransfer>, n: nat, xs: seq<Transfer>, c: bool)
    ensures Strip(ts + Tag(n, xs, c)) == Strip(ts) + Tag(n, xs, false)
  {
  }

  lemma {:induction false} SaveKeepsFaithful(cfg: Config, txsOf: Hash -> seq<Transfer>, s: State, v: View, n: nat, head: nat)
    requires Faithful(cfg, txsOf, s) && Linked(v) && At(cfg, s, v, n) && n < |v|
    requires ConfirmedUpTo(cfg, s, head) && |v| - 1 <= head
    ensures Faithful(cfg, txsOf, Apply(s, SaveOf(cfg, v, TxsAt(v, txsOf), n)))
    ensures ConfirmedUpTo(cfg, Apply(s, SaveOf(cfg, v, TxsAt(v, txsOf), n)), head)
  {
    var save := SaveOf(cfg, v, TxsAt(v, txsOf), n);
    SaveMovesOn(cfg, s, v, TxsAt(v, txsOf), n);
    CollectExtended(txsOf, s.blocks, save.block, cfg.startBlock, n);
    StripAppended(s.transfers, n, save.transfers, save.confirmed);
    AppendedUpTo(cfg, s, save, head);
  }

  lemma {:induction false} TagInjective(n: nat, xs: seq<Transfer>, ys: seq<Transfer>, c: bool)
    requires Tag(n, xs, c) == Tag(n, ys, c)
    ensures xs == ys
  {
    assert |xs| == |ys|;
    forall i | 0 <= i < |xs| ensures xs[i] == ys[i] {
      assert Tag(n, xs, c)[i].transfer == xs[i] && Tag(n, ys, c)[i].transfer == ys[i];
    }
  }

  lemma {:induction false} SameFrontSameBack<T>(a: seq<T>, b: seq<T>, c: seq<T>)
    requires a + b == a + c
    ensures b == c
  {
    assert (a + b)[|a|..] == b && (a + c)[|a|..] == c;
  }

  /** Whatever the backend, saving the next block keeps the index faithful if and only if the
      logs answered for its height are those of the header answered for it: logs are fetched
      by height, and nothing compares them with the hash. */
  lemma {:induction false} SaveIsFaithfulIff(cfg: Config, txsOf: Hash -> seq<Transfer>, s: State, b: Block, xs: seq<Transfer>, c: bool)
    requires Faithful(cfg, txsOf, s) && b.number == Next(cfg.startBlock, s.blocks) && Authentic(b)
    requires b.number - 1 in s.blocks ==> s.blocks[b.number - 1].hash == b.parentHash
    ensures Faithful(cfg, txsOf, Apply(s, Save(b, xs, c))) <==> xs == txsOf(b.hash)
  {
    var n := b.number;
    SaveKeepsIndexed(cfg.startBlock, s, b, xs, c);
    CollectExtended(txsOf, s.blocks, b, cfg.startBlock, n);
    StripAppended(s.transfers, n, xs, c);
    if Faithful(cfg, txsOf, Apply(s, Save(b, xs, c))) {
      SameFrontSameBack(Strip(s.transfers), Tag(n, xs, false), Tag(n, txsOf(b.hash), false));
      TagInjective(n, xs, txsOf(b.hash), false);
    }
  }

  lemma {:induction false} AppendedUpTo(cfg: Config, s: State, save: Action, head: nat)
    requires save.Save? && ConfirmedUpTo(cfg, s, head)
    requires save.confirmed ==> save.block.number + cfg.confirmations <= head
    ensures ConfirmedUpTo(cfg, Apply(s, save), head)
  {
  }

  lemma {:induction false} SavesKeepFaithful(cfg: Config, txsOf: Hash -> seq<Transfer>, s: State, v: View, n: nat, m: nat, head: nat)
    requires Faithful(cfg, txsOf, s) && Linked(v) && At(cfg, s, v, n) && n <= m <= Target(v, n)
    requires ConfirmedUpTo(cfg, s, head) && |v| - 1 <= head
    ensures Faithful(cfg, txsOf, ApplyAll(s, Saves(cfg, v, TxsAt(v, txsOf), n, m)))
    ensures ConfirmedUpTo(cfg, ApplyAll(s, Saves(cfg, v, TxsAt(v, txsOf), n, m)), head)
    decreases m - n
  {
    if n < m {
      var txs := TxsAt(v, txsOf);
      SaveKeepsFaithful(cfg, txsOf, s, v, n, head);
      SaveMovesOn(cfg, s, v, txs, n);
      SavesKeepFaithful(cfg, txsOf, Apply(s, SaveOf(cfg, v, txs, n)), v, n + 1, m, head);
      SavesFront(cfg, v, txs, n, m);
      ApplyCons(s, SaveOf(cfg, v, txs, n), Saves(cfg, v, txs, n + 1, m));
    }
  }

  lemma {:induction false} DeleteKeepsFaithful(cfg: Config, txsOf: Hash -> seq<Transfer>, s: State)
    requires Faithful(cfg, txsOf, s) && s.blocks != map[]
    ensures Faithful(cfg, txsOf, Apply(s, Delete(MaxKey(s.blocks.Keys))))
  {
    var tip := MaxKey(s.blocks.Keys);
    DeleteTipIsMinimal(cfg.startBlock, s);
    CollectSame(txsOf, s.blocks, BlocksBelow(s.blocks, tip), cfg.startBlock, tip);
    TopIsDropped(cfg, txsOf, s, tip, |Below(s.transfers, tip)|);
  }

  lemma {:induction false} TopIsDropped(cfg: Config, txsOf: Hash -> seq<Transfer>, s: State, tip: nat, k: nat)
    requires Faithful(cfg, txsOf, s) && Next(cfg.startBlock, s.blocks) == tip + 1 && tip in s.blocks && k <= |s.transfers|
    requires forall i :: 0 <= i < k ==> s.transfers[i].block < tip
    requires forall i :: k <= i < |s.transfers| ==> s.transfers[i].block == tip
    ensures Strip(s.transfers[..k]) == Collect(txsOf, s.blocks, cfg.startBlock, tip)
  {
    CollectRange(txsOf, s.blocks, cfg.startBlock, tip);
    TruncationDropsTop(s.transfers, k, Collect(txsOf, s.blocks, cfg.startBlock, tip), tip, txsOf(s.blocks[tip].hash));
  }

  /** Cutting sorted transfers at height `tip` cuts off exactly the top block's transfers. */
  lemma {:induction false} TruncationDropsTop(ts: seq<StoredTransfer>, k: nat, below: seq<StoredTransfer>, tip: nat, xs: seq<Transfer>)
    requires Strip(ts) == below + Tag(tip, xs, false) && InRange(below, 0, tip) && k <= |ts|
    requires forall i :: 0 <= i < k ==> ts[i].block < tip
    requires forall i :: k <= i < |ts| ==> ts[i].block == tip
    ensures Strip(ts[..k]) == below
  {
    var all := Strip(ts);
    assert forall i :: 0 <= i < |below| ==> HeightAt(all, i) < tip by {
      assert forall i :: 0 <= i < |below| ==> all[i] == below[i];
    }
    assert forall i :: |below| <= i < |all| ==> HeightAt(all, i) == tip;
    assert HeightAt(all, k) == HeightAt(ts, k) && HeightAt(all, |below|) == HeightAt(ts, |below|);
    assert k == |below|;
    assert Strip(ts[..k]) == all[..k] == below;
  }

  function HeightAt(ts: seq<StoredTransfer>, i: nat): nat {
    if i < |ts| then ts[i].block else 0
  }

  lemma {:induction false} PromotionKeepsFaithful(cfg: Config, txsOf: Hash -> seq<Transfer>, s: State, v: View, head: nat)
    requires Faithful(cfg, txsOf, s) && ConfirmedUpTo(cfg, s, head) && 0 < |v| && |v| - 1 <= head
    ensures Faithful(cfg, txsOf, ApplyAll(s, Promotion(cfg, v)))
    ensures ConfirmedUpTo(cfg, ApplyAll(s, Promotion(cfg, v)), head)
  {
    PromotionKeepsBlocks(cfg, s, v);
    var s' := ApplyAll(s, Promotion(cfg, v));
    assert Strip(s'.transfers) == Strip(s.transfers);
  }

  /** A Sync that sees one chain keeps the index faithful, however it ends. */
  lemma {:induction false} SyncKeepsFaithful(cfg: Config, txsOf: Hash -> seq<Transfer>, s: State, v: View, head: nat, trace: Trace, m: nat)
    requires Faithful(cfg, txsOf, s) && Linked(v) && ConfirmedUpTo(cfg, s, head) && |v| - 1 <= head
    requires SyncedTo(cfg, s, v, TxsAt(v, txsOf), trace, m)
    ensures Faithful(cfg, txsOf, ApplyAll(s, trace.actions))
    ensures ConfirmedUpTo(cfg, ApplyAll(s, trace.actions), head)
  {
    var n := Next(cfg.startBlock, s.blocks);
    if trace == Trace([], Failed) {
      assert ApplyAll(s, trace.actions) == s;
    } else if TipDiverges(s.blocks, v) && trace == Trace([Delete(n - 1)], RolledBack) {
      RollbackKeepsFaithful(cfg, txsOf, s, head);
      ApplyOne(s, Delete(n - 1));
      assert ApplyAll(s, trace.actions) == Apply(s, Delete(MaxKey(s.blocks.Keys)));
    } else {
      AdvanceKeepsFaithful(cfg, txsOf, s, v, head, trace, m);
    }
  }

  lemma {:induction false} RollbackKeepsFaithful(cfg: Config, txsOf: Hash -> seq<Transfer>, s: State, head: nat)
    requires Faithful(cfg, txsOf, s) && ConfirmedUpTo(cfg, s, head) && s.blocks != map[]
    ensures var t := Apply(s, Delete(MaxKey(s.blocks.Keys))); Faithful(cfg, txsOf, t) && ConfirmedUpTo(cfg, t, head)
  {
    DeleteKeepsFaithful(cfg, txsOf, s);
    DeleteTipIsMinimal(cfg.startBlock, s);
  }

  lemma {:induction false} AdvanceKeepsFaithful(cfg: Config, txsOf: Hash -> seq<Transfer>, s: State, v: View, head: nat, trace: Trace, m: nat)
    requires Faithful(cfg, txsOf, s) && Linked(v) && ConfirmedUpTo(cfg, s, head) && |v| - 1 <= head
    requires Follows(s.blocks, v) && Advanced(cfg, v, TxsAt(v, txsOf), Next(cfg.startBlock, s.blocks), trace, m)
    ensures Faithful(cfg, txsOf, ApplyAll(s, trace.actions))
    ensures ConfirmedUpTo(cfg, ApplyAll(s, trace.actions), head)
  {
    var n := Next(cfg.startBlock, s.blocks);
    AdvanceReaches(cfg, s, v, TxsAt(v, txsOf), trace, m);
    SavesKeepFaithful(cfg, txsOf, s, v, n, m, head);
    PromotionKeepsFaithful(cfg, txsOf, ApplyAll(s, Saves(cfg, v, TxsAt(v, txsOf), n, m)), v, head);
  }

  lemma {:induction false} RunIsFaithful(cfg: Config, envs: seq<Env>, vs: seq<View>, txsOf: Hash -> seq<Transfer>, head: nat)
    requires AllSee(cfg, envs, vs, txsOf)
    requires forall i :: 0 <= i < |vs| ==> |vs[i]| - 1 <= head
    ensures Faithful(cfg, txsOf, Run(cfg, Empty(), envs))
    ensures ConfirmedUpTo(cfg, Run(cfg, Empty(), envs), head)
    decreases |envs|
  {
    if envs != [] {
      var k := |envs| - 1;
      RunIsFaithful(cfg, envs[..k], vs[..k], txsOf, head);
      var s := Run(cfg, Empty(), envs[..k]);
      var m := SyncOnView(cfg, s, envs[k], vs[k], TxsAt(vs[k], txsOf));
      SyncKeepsFaithful(cfg, txsOf, s, vs[k], head, Sync(cfg, s.blocks, envs[k]), m);
    }
  }

  /** A completed Sync makes a faithful index equal to its specification. */
  lemma {:induction false} CompletedIsIndexOf(cfg: Config, txsOf: Hash -> seq<Transfer>, s: State, v: View, trace: Trace, m: nat)
    requires Faithful(cfg, txsOf, s) && Linked(v) && ConfirmedUpTo(cfg, s, |v| - 1)
    requires SyncedTo(cfg, s, v, TxsAt(v, txsOf), trace, m) && trace.outcome == Completed
    ensures ApplyAll(s, trace.actions) == IndexOf(cfg, v, txsOf)
  {
    var n := Next(cfg.startBlock, s.blocks);
    AdvanceReaches(cfg, s, v, TxsAt(v, txsOf), trace, m);
    SavesKeepFaithful(cfg, txsOf, s, v, n, m, |v| - 1);
    PromotedIsIndexOf(cfg, txsOf, ApplyAll(s, Saves(cfg, v, TxsAt(v, txsOf), n, m)), v, m);
  }

  lemma {:induction false} PromotedIsIndexOf(cfg: Config, txsOf: Hash -> seq<Transfer>, t: State, v: View, m: nat)
    requires Faithful(cfg, txsOf, t) && |v| > 0 && ConfirmedUpTo(cfg, t, |v| - 1)
    requires At(cfg, t, v, m) && (m == |v| || (m == cfg.startBlock && |v| <= m))
    ensures ApplyAll(t, Promotion(cfg, v)) == IndexOf(cfg, v, txsOf)
  {
    AtHeadIsCanon(cfg, t, v, m);
    PromotionKeepsBlocks(cfg, t, v);
    var blocks := Canon(v, cfg.startBlock);
    assert Collect(txsOf, blocks, cfg.startBlock, m) == Collect(txsOf, blocks, cfg.startBlock, |v|);
    StampIsPromotion(cfg, t, v, Collect(txsOf, blocks, cfg.startBlock, |v|));
  }

  lemma {:induction false} StampIsPromotion(cfg: Config, t: State, v: View, plain: seq<StoredTransfer>)
    requires |v| > 0 && ConfirmedUpTo(cfg, t, |v| - 1) && Strip(t.transfers) == plain
    ensures ApplyAll(t, Promotion(cfg, v)).transfers == Stamp(plain, cfg.confirmations, |v| - 1)
  {
    PromotionKeepsBlocks(cfg, t, v);
    var after := ApplyAll(t, Promotion(cfg, v)).transfers;
    forall i | 0 <= i < |after| ensures after[i] == Stamp(plain, cfg.confirmations, |v| - 1)[i] {
      assert plain[i] == t.transfers[i].(confirmed := false);
    }
  }

  /** Whatever chains earlier Syncs saw and wherever they were cut short, once a Sync
      completes at a head no earlier one exceeded, the whole store is the index of that
      chain: its blocks, exactly their transfers in order, and confirmed exactly where deep. */
  lemma {:induction false} IndexIsFunctionOfChain(cfg: Config, envs: seq<Env>, vs: seq<View>, txsOf: Hash -> seq<Transfer>, env: Env, v: View)
    requires AllSee(cfg, envs, vs, txsOf) && Sees(cfg, env, v, txsOf)
    requires forall i :: 0 <= i < |vs| ==> |vs[i]| <= |v|
    requires Sync(cfg, Run(cfg, Empty(), envs).blocks, env).outcome == Completed
    ensures SyncStep(cfg, Run(cfg, Empty(), envs), env) == IndexOf(cfg, v, txsOf)
  {
    RunIsFaithful(cfg, envs, vs, txsOf, |v| - 1);
    var s := Run(cfg, Empty(), envs);
    var m := SyncOnView(cfg, s, env, v, TxsAt(v, txsOf));
    CompletedIsIndexOf(cfg, txsOf, s, v, Sync(cfg, s.blocks, env), m);
  }
}
