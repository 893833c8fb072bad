/** Recovery from a reorg: how many Syncs it takes, and what each of them does. */
module Convergence {
  import opened Chain
  import opened Erc20
  import opened StoreModel
  import opened SyncSpec
  import opened ChainInvariant
  import opened OnView

  /** The stored heights whose block is not the block of `v`. */
  ghost function Divergent(blocks: map<nat, Block>, v: View): set<nat> {
    set n | n in blocks && n < |v| && blocks[n].hash != HashOf(v[n])
  }

  lemma {:induction false} SpanSize(span: set<nat>, a: nat, b: nat)
    requires a <= b && forall n :: n in span <==> a <= n < b
    ensures |span| == b - a
    decreases b
  {
    if a < b {
      assert span == (span - {b - 1}) + {b - 1};
      SpanSize(span - {b - 1}, a, b - 1);
    } else {
      assert span == {};
    }
  }

  /** The lowest height from which the stored blocks below `n` all diverge. */
  ghost function Fork(start: nat, blocks: map<nat, Block>, v: View, n: nat): (f: nat)
    requires start <= n <= |v| || n == start
    requires forall k :: start <= k < n ==> k in blocks
    ensures start <= f <= n
    ensures forall k :: f <= k < n ==> blocks[k].hash != HashOf(v[k])
    ensures start < f ==> blocks[f - 1].hash == HashOf(v[f - 1])
  {
    if n == start || blocks[n - 1].hash == HashOf(v[n - 1]) then n
    else Fork(start, blocks, v, n - 1)
  }

  /** The top `d` stored blocks are not those of `v`, and all others are. */
  ghost predicate Forked(start: nat, blocks: map<nat, Block>, v: View, d: nat) {
    var next := Next(start, blocks);
    && start + d <= next
    && (forall n :: n in blocks && next - d <= n ==> n < |v| && blocks[n].hash != HashOf(v[n]))
    && (forall n :: n in blocks && n < next - d ==> n < |v| && blocks[n] == BlockOf(n, v[n]))
  }

  /** No stored height is above the head of `v`. */
  ghost predicate Within(blocks: map<nat, Block>, v: View) {
    forall n :: n in blocks ==> n < |v|
  }

  /** Divergent blocks are the top of the stored chain, as many as there are. */
  lemma {:induction false} DivergenceIsSuffix(start: nat, blocks: map<nat, Block>, v: View)
    requires Chained(start, blocks) && Linked(v) && Within(blocks, v)
    ensures Forked(start, blocks, v, |Divergent(blocks, v)|)
  {
    var next := Next(start, blocks);
    assert start < next ==> next - 1 in blocks;
    var f := Fork(start, blocks, v, next);
    if start < f {
      HashForcesPrefix(start, blocks, v, f - 1);
    }
    SpanSize(Divergent(blocks, v), f, next);
  }

  /** Rolling back the tip of a divergent store leaves one divergent block fewer. */
  lemma {:induction false} CutTipConverges(start: nat, blocks: map<nat, Block>, v: View)
    requires Chained(start, blocks) && Linked(v) && Within(blocks, v) && TipDiverges(blocks, v)
    ensures var below := BlocksBelow(blocks, Next(start, blocks) - 1);
      && Next(start, blocks) > 0 && Next(start, below) == Next(start, blocks) - 1 && Within(below, v)
      && |Divergent(blocks, v)| > 0 && |Divergent(below, v)| == |Divergent(blocks, v)| - 1
  {
    TruncateBlocks(start, blocks);
    OneFewer(blocks, v, MaxKey(blocks.Keys));
  }

  lemma {:induction false} OneFewer(blocks: map<nat, Block>, v: View, tip: nat)
    requires tip in blocks && tip < |v| && blocks[tip].hash != HashOf(v[tip])
    requires forall n :: n in blocks ==> n <= tip
    ensures |Divergent(blocks, v)| > 0 && |Divergent(BlocksBelow(blocks, tip), v)| == |Divergent(blocks, v)| - 1
  {
    assert tip in Divergent(blocks, v);
    assert Divergent(BlocksBelow(blocks, tip), v) == Divergent(blocks, v) - {tip};
  }

  /** The transfer at place `i` of `ts` is still at that place, and confirmed if it was. */
  predicate KeptAt(ts: seq<StoredTransfer>, us: seq<StoredTransfer>, i: nat)
    requires i < |ts|
  {
    i < |us| && us[i].block == ts[i].block && us[i].transfer == ts[i].transfer && (ts[i].confirmed ==> us[i].confirmed)
  }

  ghost predicate BlocksStay(blocks: map<nat, Block>, more: map<nat, Block>) {
    forall n :: n in blocks ==> n in more && more[n] == blocks[n]
  }

  /** Nothing of `s` is lost in `t`: its blocks are there, its transfers are in place and no
      less confirmed, and the transfers after them are of blocks that `s` does not have. */
  ghost predicate Grows(s: State, t: State) {
    && BlocksStay(s.blocks, t.blocks)
    && |s.transfers| <= |t.transfers|
    && (forall i :: 0 <= i < |s.transfers| ==> KeptAt(s.transfers, t.transfers, i))
    && (forall i :: |s.transfers| <= i < |t.transfers| ==> t.transfers[i].block !in s.blocks)
  }

  lemma {:induction false} GrowsTransitive(a: State, b: State, c: State)
    requires Grows(a, b) && Grows(b, c)
    ensures Grows(a, c)
  {
    forall i | 0 <= i < |a.transfers| ensures KeptAt(a.transfers, c.transfers, i) {
      assert KeptAt(a.transfers, b.transfers, i) && KeptAt(b.transfers, c.transfers, i);
    }
    forall i | |a.transfers| <= i < |c.transfers| ensures c.transfers[i].block !in a.blocks {
      if i < |b.transfers| {
        assert KeptAt(b.transfers, c.transfers, i);
      }
    }
  }

  lemma {:induction false} GrowsReflexive(s: State)
    ensures Grows(s, s)
  {
    forall i | 0 <= i < |s.transfers| ensures KeptAt(s.transfers, s.transfers, i) {
    }
  }

  lemma {:induction false} SaveGrows(s: State, b: Block, ts: seq<Transfer>, c: bool)
    requires b.number !in s.blocks
    ensures Grows(s, Apply(s, Save(b, ts, c)))
  {
    var t := Apply(s, Save(b, ts, c));
    forall i | 0 <= i < |s.transfers| ensures KeptAt(s.transfers, t.transfers, i) {
    }
  }

  lemma {:induction false} NextIsNew(start: nat, blocks: map<nat, Block>)
    requires Chained(start, blocks)
    ensures Next(start, blocks) !in blocks
  {
  }

  lemma {:induction false} SaveThenGrows(start: nat, s: State, save: Action, t: State)
    requires Chained(start, s.blocks) && save.Save? && save.block.number == Next(start, s.blocks)
    requires Grows(Apply(s, save), t)
    ensures Grows(s, t)
  {
    NextIsNew(start, s.blocks);
    SaveGrows(s, save.block, save.transfers, save.confirmed);
    GrowsTransitive(s, Apply(s, save), t);
  }

  lemma {:induction false} SavesGrow(cfg: Config, s: State, v: View, txs: nat -> seq<Transfer>, n: nat, m: nat)
    requires Linked(v) && At(cfg, s, v, n) && n <= m <= Target(v, n)
    ensures Grows(s, ApplyAll(s, Saves(cfg, v, txs, n, m)))
    decreases m - n
  {
    if n == m {
      GrowsReflexive(s);
    } else {
      var save, rest := SaveOf(cfg, v, txs, n), Saves(cfg, v, txs, n + 1, m);
      SaveMovesOn(cfg, s, v, txs, n);
      SavesGrow(cfg, Apply(s, save), v, txs, n + 1, m);
      SavesFront(cfg, v, txs, n, m);
      ApplyCons(s, save, rest);
      SaveThenGrows(cfg.startBlock, s, save, ApplyAll(Apply(s, save), rest));
    }
  }

  lemma {:induction false} PromotionGrows(cfg: Config, s: State, v: View)
    requires |v| > 0
    ensures Grows(s, ApplyAll(s, Promotion(cfg, v)))
  {
    PromotionKeepsBlocks(cfg, s, v);
    var t := ApplyAll(s, Promotion(cfg, v));
    forall i | 0 <= i < |s.transfers| ensures KeptAt(s.transfers, t.transfers, i) {
    }
  }

  lemma {:induction false} AdvanceGrows(cfg: Config, s: State, v: View, txs: nat -> seq<Transfer>, trace: Trace, m: nat)
    requires Indexed(cfg.startBlock, s) && Linked(v) && Follows(s.blocks, v)
    requires Advanced(cfg, v, txs, Next(cfg.startBlock, s.blocks), trace, m)
    ensures Grows(s, ApplyAll(s, trace.actions))
  {
    var n := Next(cfg.startBlock, s.blocks);
    var mid := ApplyAll(s, Saves(cfg, v, txs, n, m));
    AdvanceReaches(cfg, s, v, txs, trace, m);
    SavesGrow(cfg, s, v, txs, n, m);
    PromotionGrows(cfg, mid, v);
    GrowsTransitive(s, mid, ApplyAll(mid, Promotion(cfg, v)));
  }

  /** The store followed `v`, and follows it after saves and a promotion. */
  lemma {:induction false} AdvanceFollows(cfg: Config, s: State, v: View, txs: nat -> seq<Transfer>, trace: Trace, m: nat)
    requires Indexed(cfg.startBlock, s) && Linked(v) && Follows(s.blocks, v)
    requires Advanced(cfg, v, txs, Next(cfg.startBlock, s.blocks), trace, m)
    ensures Follows(ApplyAll(s, trace.actions).blocks, v)
    ensures s.blocks == Canon(v, cfg.startBlock) ==> ApplyAll(s, trace.actions).blocks == Canon(v, cfg.startBlock)
  {
    var n := Next(cfg.startBlock, s.blocks);
    AdvanceReaches(cfg, s, v, txs, trace, m);
    var t := ApplyAll(s, Saves(cfg, v, txs, n, m));
    PromotionKeepsBlocks(cfg, t, v);
    if s.blocks == Canon(v, cfg.startBlock) {
      CanonIsDone(cfg, v);
      AtHeadIsCanon(cfg, t, v, m);
    }
  }

  lemma {:induction false} CanonIsDone(cfg: Config, v: View)
    ensures var n := Next(cfg.startBlock, Canon(v, cfg.startBlock)); n == |v| || (n == cfg.startBlock && |v| <= n)
  {
    NextOfSpan(cfg.startBlock, Canon(v, cfg.startBlock), if cfg.startBlock < |v| then |v| else cfg.startBlock);
  }

  /** `t` is `s` without its topmost block, which diverges from `v`, and its transfers. */
  ghost predicate CutsTip(start: nat, s: State, v: View, t: State) {
    var next := Next(start, s.blocks);
    && TipDiverges(s.blocks, v) && t == Apply(s, Delete(next - 1)) && Next(start, t.blocks) == next - 1
    && |Divergent(s.blocks, v)| > 0 && |Divergent(t.blocks, v)| == |Divergent(s.blocks, v)| - 1
  }

  /** Nothing diverges, and `t` is `s` with more blocks of `v` and their transfers. */
  ghost predicate Advances(s: State, v: View, t: State) {
    |Divergent(s.blocks, v)| == 0 && |Divergent(t.blocks, v)| == 0 && Follows(t.blocks, v) && Grows(s, t)
  }

  /** What one Sync against `v` makes of `s`. */
  ghost predicate Converging(cfg: Config, s: State, v: View, t: State, faultless: bool) {
    && Within(t.blocks, v)
    && (t == s || CutsTip(cfg.startBlock, s, v, t) || Advances(s, v, t))
    && (faultless && |Divergent(s.blocks, v)| > 0 ==> CutsTip(cfg.startBlock, s, v, t))
    && (faultless && |Divergent(s.blocks, v)| == 0 ==> t.blocks == Canon(v, cfg.startBlock))
    && (s.blocks == Canon(v, cfg.startBlock) ==> t.blocks == Canon(v, cfg.startBlock))
  }

  /** Against one chain at least as long as the index, and wherever it fails, a Sync leaves
      the store as it is, or takes the topmost block off, which is divergent, with its
      transfers, or, with none divergent, only adds canonical blocks and transfers of those
      and confirms. Without faults it does one of the last two, and the latter to the end. */
  lemma {:induction false} SyncConverges(cfg: Config, s: State, env: Env, v: View)
    requires Indexed(cfg.startBlock, s) && Linked(v) && ServesHeaders(env, v) && Within(s.blocks, v)
    ensures Converging(cfg, s, v, SyncStep(cfg, s, env), NeverFails(env, v))
  {
    var m := SyncOnView(cfg, s, env, v, Heard(cfg, env));
    assert s.blocks != map[] ==> MaxKey(s.blocks.Keys) in s.blocks;
    TraceConverges(cfg, s, v, Heard(cfg, env), Sync(cfg, s.blocks, env), m, NeverFails(env, v), SyncStep(cfg, s, env));
  }

  lemma {:induction false} TraceConverges(cfg: Config, s: State, v: View, txs: nat -> seq<Transfer>, trace: Trace, m: nat, faultless: bool, t: State)
    requires Indexed(cfg.startBlock, s) && Linked(v) && Within(s.blocks, v) && t == ApplyAll(s, trace.actions)
    requires SyncedTo(cfg, s, v, txs, trace, m) && (faultless ==> trace.outcome != Failed)
    ensures Converging(cfg, s, v, t, faultless)
  {
    var n := Next(cfg.startBlock, s.blocks);
    if Follows(s.blocks, v) && Advanced(cfg, v, txs, n, trace, m) {
      AdvanceConverges(cfg, s, v, txs, trace, m, faultless);
    } else if trace.outcome == RolledBack {
      ApplyOne(s, Delete(n - 1));
      RollbackConverges(cfg, s, v, faultless, t);
    } else {
      IdleConverges(cfg, s, v, t);
    }
  }

  lemma {:induction false} IdleConverges(cfg: Config, s: State, v: View, t: State)
    requires Within(s.blocks, v) && t == s
    ensures Converging(cfg, s, v, t, false)
  {
  }

  lemma {:induction false} RollbackCutsTip(start: nat, s: State, v: View)
    requires Chained(start, s.blocks) && Linked(v) && Within(s.blocks, v) && TipDiverges(s.blocks, v)
    ensures var t := Apply(s, Delete(Next(start, s.blocks) - 1)); CutsTip(start, s, v, t) && Within(t.blocks, v)
  {
    CutTipConverges(start, s.blocks, v);
    var t := Apply(s, Delete(Next(start, s.blocks) - 1));
    assert t.blocks == BlocksBelow(s.blocks, Next(start, s.blocks) - 1);
  }

  lemma {:induction false} CutConverges(cfg: Config, s: State, v: View, faultless: bool, t: State)
    requires CutsTip(cfg.startBlock, s, v, t) && Within(t.blocks, v)
    ensures Converging(cfg, s, v, t, faultless)
  {
    CanonDoesNotDiverge(cfg, v);
    assert s.blocks != Canon(v, cfg.startBlock);
  }

  lemma {:induction false} RollbackConverges(cfg: Config, s: State, v: View, faultless: bool, t: State)
    requires Chained(cfg.startBlock, s.blocks) && Linked(v) && Within(s.blocks, v) && TipDiverges(s.blocks, v)
    requires t == Apply(s, Delete(Next(cfg.startBlock, s.blocks) - 1))
    ensures Converging(cfg, s, v, t, faultless)
  {
    RollbackCutsTip(cfg.startBlock, s, v);
    CutConverges(cfg, s, v, faultless, t);
  }

  lemma {:induction false} AdvanceConverges(cfg: Config, s: State, v: View, txs: nat -> seq<Transfer>, trace: Trace, m: nat, faultless: bool)
    requires Indexed(cfg.startBlock, s) && Linked(v) && Follows(s.blocks, v)
    requires Advanced(cfg, v, txs, Next(cfg.startBlock, s.blocks), trace, m) && (faultless ==> trace.outcome != Failed)
    ensures Converging(cfg, s, v, ApplyAll(s, trace.actions), faultless)
  {
    NothingDiverges(s.blocks, v);
    AdvanceFollows(cfg, s, v, txs, trace, m);
    AdvanceGrows(cfg, s, v, txs, trace, m);
    NothingDiverges(ApplyAll(s, trace.actions).blocks, v);
    if faultless {
      CompletedGivesCanon(cfg, s, v, txs, trace, m);
    }
  }

  lemma {:induction false} NothingDiverges(blocks: map<nat, Block>, v: View)
    requires Follows(blocks, v)
    ensures Within(blocks, v) && Divergent(blocks, v) == {}
  {
    forall n | n in blocks ensures n < |v| && blocks[n].hash == HashOf(v[n]) {
      assert blocks[n] == BlockOf(n, v[n]);
    }
  }

  ghost predicate HeadersAt(envs: seq<Env>, v: View, i: nat)
    requires i < |envs|
  {
    ServesHeaders(envs[i], v)
  }

  /** Each Sync answers from `v`, though it may fail. */
  ghost predicate AllFrom(envs: seq<Env>, v: View) {
    forall i :: 0 <= i < |envs| ==> HeadersAt(envs, v, i)
  }

  ghost function FaultFree(envs: seq<Env>, v: View): nat {
    if envs == [] then 0
    else FaultFree(envs[..|envs| - 1], v) + (if NeverFails(envs[|envs| - 1], v) then 1 else 0)
  }

  lemma {:induction false} AllFromPrefix(envs: seq<Env>, v: View, k: nat)
    requires AllFrom(envs, v) && k <= |envs|
    ensures AllFrom(envs[..k], v)
  {
    forall i | 0 <= i < k ensures HeadersAt(envs[..k], v, i) {
      assert HeadersAt(envs, v, i);
    }
  }

  /** Against one chain at least as long as the index, whichever calls fail: divergent blocks
      never become more, each Sync without faults takes one off, and after more of those than
      there were divergent blocks the store holds the canonical blocks, and keeps them. */
  lemma {:induction false} ReorgConvergesDespiteFaults(cfg: Config, s: State, v: View, envs: seq<Env>)
    requires Indexed(cfg.startBlock, s) && Linked(v) && AllFrom(envs, v) && Within(s.blocks, v)
    ensures var t := Run(cfg, s, envs); var d, e, f := |Divergent(s.blocks, v)|, |Divergent(t.blocks, v)|, FaultFree(envs, v);
      && Within(t.blocks, v) && e <= d
      && (e + f <= d || t.blocks == Canon(v, cfg.startBlock))
      && (f > d ==> t.blocks == Canon(v, cfg.startBlock))
  {
    if envs != [] {
      var k := |envs| - 1;
      AllFromPrefix(envs, v, k);
      ReorgConvergesDespiteFaults(cfg, s, v, envs[..k]);
      RunKeepsIndexed(cfg, s, envs[..k]);
      assert HeadersAt(envs, v, k);
      SyncConverges(cfg, Run(cfg, s, envs[..k]), envs[k], v);
      CanonDoesNotDiverge(cfg, v);
    }
  }

  lemma {:induction false} CanonDoesNotDiverge(cfg: Config, v: View)
    ensures Divergent(Canon(v, cfg.startBlock), v) == {}
  {
    NothingDiverges(Canon(v, cfg.startBlock), v);
  }

  // The same while the chain grows between Syncs.

  ghost predicate Growing(vs: seq<View>) {
    forall i :: 0 < i < |vs| ==> vs[i - 1] <= vs[i]
  }

  ghost function FaultFreeOn(envs: seq<Env>, vs: seq<View>): nat
    requires |envs| == |vs|
  {
    if envs == [] then 0
    else
      var k := |envs| - 1;
      FaultFreeOn(envs[..k], vs[..k]) + (if NeverFails(envs[k], vs[k]) then 1 else 0)
  }

  lemma {:induction false} SameDivergence(blocks: map<nat, Block>, v: View, w: View)
    requires Within(blocks, v) && v <= w
    ensures Within(blocks, w) && Divergent(blocks, w) == Divergent(blocks, v)
  {
  }

  /** Of `d` divergent blocks, all are gone or at least `f`. */
  ghost predicate Settling(blocks: map<nat, Block>, v: View, d: nat, f: nat) {
    var e := |Divergent(blocks, v)|;
    Within(blocks, v) && e <= d && (e + f <= d || e == 0)
  }

  lemma {:induction false} GrowingStep(cfg: Config, s: State, env: Env, v: View, d: nat, f: nat)
    requires Indexed(cfg.startBlock, s) && Linked(v) && ServesHeaders(env, v) && Settling(s.blocks, v, d, f)
    ensures var t := SyncStep(cfg, s, env); var f' := f + (if NeverFails(env, v) then 1 else 0);
      && Settling(t.blocks, v, d, f')
      && (f' > d && NeverFails(env, v) ==> t.blocks == Canon(v, cfg.startBlock))
  {
    SyncConverges(cfg, s, env, v);
    CanonDoesNotDiverge(cfg, v);
  }

  lemma {:induction false} GrowingPrefix(envs: seq<Env>, vs: seq<View>, k: nat)
    requires RunSees(envs, vs) && Growing(vs) && k < |envs|
    ensures RunSees(envs[..k], vs[..k]) && Growing(vs[..k])
    ensures Linked(vs[k]) && ServesHeaders(envs[k], vs[k]) && (k > 0 ==> vs[k - 1] <= vs[k])
  {
  }

  /** While the chain grows, each Sync seeing it at some length, and whichever calls fail:
      divergent blocks never become more, each Sync without faults takes one off while there
      are any, and a Sync without faults that comes after as many such Syncs as there were
      divergent blocks leaves the canonical blocks of the chain it sees. */
  lemma {:induction false} GrowingChainConverges(cfg: Config, s: State, envs: seq<Env>, vs: seq<View>)
    requires Indexed(cfg.startBlock, s) && RunSees(envs, vs) && envs != [] && Growing(vs) && Within(s.blocks, vs[0])
    ensures var t, v := Run(cfg, s, envs), vs[|vs| - 1]; var d, f := |Divergent(s.blocks, vs[0])|, FaultFreeOn(envs, vs);
      && Settling(t.blocks, v, d, f)
      && (f > d && NeverFails(envs[|envs| - 1], v) ==> t.blocks == Canon(v, cfg.startBlock))
    decreases |envs|
  {
    var k, d := |envs| - 1, |Divergent(s.blocks, vs[0])|;
    var t, f := Run(cfg, s, envs[..k]), FaultFreeOn(envs[..k], vs[..k]);
    RunKeepsIndexed(cfg, s, envs[..k]);
    GrowingPrefix(envs, vs, k);
    if k > 0 {
      GrowingChainConverges(cfg, s, envs[..k], vs[..k]);
      SameDivergence(t.blocks, vs[k - 1], vs[k]);
    }
    assert Settling(t.blocks, vs[k], d, f);
    GrowingStep(cfg, t, envs[k], vs[k], d, f);
  }

  // Without faults, exactly.

  ghost predicate ServesAt(envs: seq<Env>, v: View, i: nat)
    requires i < |envs|
  {
    ServesHeaders(envs[i], v) && NeverFails(envs[i], v)
  }

  ghost predicate AllServe(envs: seq<Env>, v: View) {
    forall i :: 0 <= i < |envs| ==> ServesAt(envs, v, i)
  }

  lemma {:induction false} AllServePrefix(envs: seq<Env>, v: View, k: nat)
    requires AllServe(envs, v) && k <= |envs|
    ensures AllServe(envs[..k], v)
  {
    forall i | 0 <= i < k ensures ServesAt(envs[..k], v, i) {
      assert ServesAt(envs, v, i);
    }
  }

  lemma {:induction false} AllServeIsFaultFree(envs: seq<Env>, v: View)
    requires AllServe(envs, v)
    ensures AllFrom(envs, v) && FaultFree(envs, v) == |envs|
  {
    forall i | 0 <= i < |envs| ensures HeadersAt(envs, v, i) {
      assert ServesAt(envs, v, i);
    }
    if envs != [] {
      AllServePrefix(envs, v, |envs| - 1);
      AllServeIsFaultFree(envs[..|envs| - 1], v);
      assert ServesAt(envs, v, |envs| - 1);
    }
  }

  lemma {:induction false} BelowBelow(ts: seq<StoredTransfer>, n: nat, m: nat)
    requires m <= n
    ensures Below(Below(ts, n), m) == Below(ts, m)
  {
    if ts != [] {
      var front, last := ts[..|ts| - 1], ts[|ts| - 1];
      BelowBelow(front, n, m);
      if last.block < n {
        assert (Below(front, n) + [last])[..|Below(front, n)|] == Below(front, n);
      }
    }
  }

  lemma {:induction false} DeleteNothing(start: nat, s: State)
    requires Indexed(start, s)
    ensures Apply(s, Delete(Next(start, s.blocks))) == s
  {
    var next := Next(start, s.blocks);
    BelowTruncates(s.transfers, next);
    assert forall i :: 0 <= i < |s.transfers| ==> s.transfers[i].block < next;
    assert BlocksBelow(s.blocks, next) == s.blocks;
  }

  lemma {:induction false} DeleteDelete(s: State, n: nat, m: nat)
    requires m <= n
    ensures Apply(Apply(s, Delete(n)), Delete(m)) == Apply(s, Delete(m))
  {
    BelowBelow(s.transfers, n, m);
    assert BlocksBelow(BlocksBelow(s.blocks, n), m) == BlocksBelow(s.blocks, m);
  }

  /** The store is `s` without its `k` topmost blocks and their transfers, all divergent. */
  ghost predicate CutBack(start: nat, s: State, v: View, t: State, k: nat) {
    var next := Next(start, s.blocks);
    && k <= next && t == Apply(s, Delete(next - k)) && Next(start, t.blocks) == next - k
    && Within(t.blocks, v) && |Divergent(t.blocks, v)| == |Divergent(s.blocks, v)| - k
  }

  lemma {:induction false} CutBackOnce(cfg: Config, s: State, v: View, t: State, k: nat, t': State)
    requires CutBack(cfg.startBlock, s, v, t, k) && CutsTip(cfg.startBlock, t, v, t') && Within(t'.blocks, v)
    ensures CutBack(cfg.startBlock, s, v, t', k + 1)
  {
    var n := Next(cfg.startBlock, s.blocks) - k;
    DeleteDelete(s, n, n - 1);
  }

  /** While divergent blocks are left, the whole store, transfers included, is the original
      cut back by one block per Sync. */
  lemma {:induction false} RecoveryTruncates(cfg: Config, s: State, v: View, envs: seq<Env>)
    requires Indexed(cfg.startBlock, s) && Linked(v) && AllServe(envs, v) && Within(s.blocks, v)
    requires |envs| <= |Divergent(s.blocks, v)|
    ensures CutBack(cfg.startBlock, s, v, Run(cfg, s, envs), |envs|)
  {
    if envs == [] {
      DeleteNothing(cfg.startBlock, s);
    } else {
      var k := |envs| - 1;
      AllServePrefix(envs, v, k);
      RecoveryTruncates(cfg, s, v, envs[..k]);
      RunKeepsIndexed(cfg, s, envs[..k]);
      assert ServesAt(envs, v, k);
      var t := Run(cfg, s, envs[..k]);
      SyncConverges(cfg, t, envs[k], v);
      CutBackOnce(cfg, s, v, t, k, SyncStep(cfg, t, envs[k]));
    }
  }

  /** With a settled chain at least as long as the index and d divergent blocks, k Syncs
      leave the index without its k topmost blocks and their transfers for k <= d, and with
      the canonical blocks from the start block to the head for k > d. */
  lemma {:induction false} ReorgConverges(cfg: Config, s: State, v: View, envs: seq<Env>)
    requires Indexed(cfg.startBlock, s) && Linked(v) && AllServe(envs, v) && Within(s.blocks, v)
    ensures var next := Next(cfg.startBlock, s.blocks); var d := |Divergent(s.blocks, v)|; var k := |envs|;
      && d <= next
      && (k <= d ==> Run(cfg, s, envs) == Apply(s, Delete(next - k)))
      && (k > d ==> Run(cfg, s, envs).blocks == Canon(v, cfg.startBlock))
  {
    DivergenceIsSuffix(cfg.startBlock, s.blocks, v);
    if |envs| <= |Divergent(s.blocks, v)| {
      RecoveryTruncates(cfg, s, v, envs);
    } else {
      AllServeIsFaultFree(envs, v);
      ReorgConvergesDespiteFaults(cfg, s, v, envs);
    }
  }

  lemma {:induction false} ShorterChainChangesNothing(cfg: Config, s: State, env: Env, v: View)
    requires Chained(cfg.startBlock, s.blocks) && ServesHeaders(env, v)
    requires s.blocks != map[] && MaxKey(s.blocks.Keys) >= |v|
    ensures Sync(cfg, s.blocks, env) == Trace([], Failed)
  {
    assert s.blocks[MaxKey(s.blocks.Keys)].number == MaxKey(s.blocks.Keys);
  }

  /** As long as the chains that are served are shorter than the index, no Sync writes or
      publishes anything. */
  lemma {:induction false} ShorterChainsChangeNothing(cfg: Config, s: State, envs: seq<Env>, vs: seq<View>)
    requires Chained(cfg.startBlock, s.blocks) && s.blocks != map[] && |envs| == |vs|
    requires forall i :: 0 <= i < |envs| ==> ServesHeaders(envs[i], vs[i]) && |vs[i]| <= MaxKey(s.blocks.Keys)
    ensures Run(cfg, s, envs) == s && RunActions(cfg, s, envs) == []
    decreases |envs|
  {
    if envs != [] {
      var k := |envs| - 1;
      ShorterChainsChangeNothing(cfg, s, envs[..k], vs[..k]);
      ShorterChainChangesNothing(cfg, s, envs[k], vs[k]);
    }
  }
}
