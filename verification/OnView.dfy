/** Sync against a node that answers from one linked chain, though any call may still fail. */
module OnView {
  import opened Chain
  import opened Erc20
  import opened StoreModel
  import opened SyncSpec
  import opened ChainInvariant

  /** Every header the node returns comes from `v`. */
  ghost predicate ServesHeaders(env: Env, v: View) {
    && (env.head.Some? ==> env.head.value.number == |v| - 1)
    && (forall n: nat :: env.header(n).Some? ==> n < |v| && env.header(n).value == v[n])
  }

  /** Every log query answered at a height `n` of `v` decodes to the transfers `txs(n)`. */
  ghost predicate ServesTransfers(cfg: Config, env: Env, v: View, txs: nat -> seq<Transfer>) {
    forall n: nat :: n < |v| && env.logs(n).Some? ==> DecodeAll(cfg.topicID, env.logs(n).value) == txs(n)
  }

  /** Each Sync of a run answers from one chain; the chains may differ from Sync to Sync. */
  ghost predicate RunSees(envs: seq<Env>, vs: seq<View>) {
    |envs| == |vs| && forall i :: 0 <= i < |envs| ==> Linked(vs[i]) && ServesHeaders(envs[i], vs[i])
  }

  ghost predicate NeverFails(env: Env, v: View) {
    && env.head.Some?
    && (forall n: nat :: n < |v| ==> env.header(n).Some? && env.logs(n).Some?)
    && (forall n :: !env.cancelled(n))
    && (forall c :: !env.storeFails(c))
  }

  /** Every stored block is the block of `v` at its height. */
  ghost predicate Follows(blocks: map<nat, Block>, v: View) {
    forall n :: n in blocks ==> n < |v| && blocks[n] == BlockOf(n, v[n])
  }

  /** The highest stored block is within `v` but is not its block there. */
  ghost predicate TipDiverges(blocks: map<nat, Block>, v: View) {
    blocks != map[] &&
    var tip := MaxKey(blocks.Keys);
    tip < |v| && blocks[tip].hash != HashOf(v[tip])
  }

  /** Equal hashes at one height force equal blocks at every stored height below it. */
  lemma {:induction false} HashForcesPrefix(start: nat, blocks: map<nat, Block>, v: View, t: nat)
    requires Chained(start, blocks) && Linked(v)
    requires t in blocks && t < |v| && blocks[t].hash == HashOf(v[t])
    ensures forall n :: n in blocks && n <= t ==> blocks[n] == BlockOf(n, v[n])
    decreases t
  {
    if start < t {
      assert LinkedAt(blocks, t) && BuildsOnParent(v, t);
      HashForcesPrefix(start, blocks, v, t - 1);
    }
  }

  lemma {:induction false} TipMatchFollows(start: nat, blocks: map<nat, Block>, v: View)
    requires Chained(start, blocks) && Linked(v) && blocks != map[]
    requires MaxKey(blocks.Keys) < |v| && !TipDiverges(blocks, v)
    ensures Follows(blocks, v)
  {
    HashForcesPrefix(start, blocks, v, MaxKey(blocks.Keys));
  }

  /** The write that indexes height `n` of `v`. */
  function SaveOf(cfg: Config, v: View, txs: nat -> seq<Transfer>, n: nat): Action
    requires n < |v|
  {
    Save(BlockOf(n, v[n]), txs(n), n + cfg.confirmations <= |v| - 1)
  }

  function Saves(cfg: Config, v: View, txs: nat -> seq<Transfer>, n: nat, m: nat): seq<Action>
    requires m <= n || m <= |v|
  {
    if m <= n then []
    else Saves(cfg, v, txs, n, m - 1) + [SaveOf(cfg, v, txs, m - 1)]
  }

  function Promotion(cfg: Config, v: View): seq<Action>
    requires |v| > 0
  {
    if |v| - 1 < cfg.confirmations then [] else [Confirm(|v| - 1 - cfg.confirmations)]
  }

  function Target(v: View, n: nat): nat {
    if n < |v| then |v| else n
  }

  lemma {:induction false} SavesFront(cfg: Config, v: View, txs: nat -> seq<Transfer>, n: nat, m: nat)
    requires n < m <= |v|
    ensures Saves(cfg, v, txs, n, m) == [SaveOf(cfg, v, txs, n)] + Saves(cfg, v, txs, n + 1, m)
  {
    if n + 1 < m {
      SavesFront(cfg, v, txs, n, m - 1);
    }
  }

  /** The loop saves a run of blocks of `v` and never rolls back; if it completes, it has
      reached the head and promoted. */
  ghost predicate Advanced(cfg: Config, v: View, txs: nat -> seq<Transfer>, n: nat, trace: Trace, m: nat) {
    && |v| > 0 && n <= m <= Target(v, n)
    && match trace.outcome
       case Completed => m == Target(v, n) && trace.actions == Saves(cfg, v, txs, n, m) + Promotion(cfg, v)
       case Failed => trace.actions == Saves(cfg, v, txs, n, m)
       case RolledBack => false
  }

  /** One round of the loop within `v`: it gives up, or saves the block of `v`. */
  lemma {:induction false} ExtendOnce(cfg: Config, blocks: map<nat, Block>, env: Env, v: View, txs: nat -> seq<Transfer>, n: nat)
    requires Linked(v) && ServesHeaders(env, v) && ServesTransfers(cfg, env, v, txs)
    requires Follows(blocks, v) && n < |v|
    ensures var trace := Extend(cfg, blocks, env, |v| - 1, n);
      var rest := Extend(cfg, blocks[n := BlockOf(n, v[n])], env, |v| - 1, n + 1);
      || (trace == Trace([], Failed) && !NeverFails(env, v))
      || trace == Trace([SaveOf(cfg, v, txs, n)] + rest.actions, rest.outcome)
  {
    assert BuildsOnParent(v, n);
    assert n > 0 && n - 1 in blocks ==> blocks[n - 1] == BlockOf(n - 1, v[n - 1]);
  }

  lemma {:induction false} AdvancedCons(cfg: Config, v: View, txs: nat -> seq<Transfer>, n: nat, rest: Trace, m: nat)
    requires n < |v| && Advanced(cfg, v, txs, n + 1, rest, m)
    ensures Advanced(cfg, v, txs, n, Trace([SaveOf(cfg, v, txs, n)] + rest.actions, rest.outcome), m)
  {
    SavesFront(cfg, v, txs, n, m);
  }

  lemma {:induction false} ExtendAdvances(cfg: Config, blocks: map<nat, Block>, env: Env, v: View, txs: nat -> seq<Transfer>, n: nat)
    returns (m: nat)
    requires Linked(v) && ServesHeaders(env, v) && ServesTransfers(cfg, env, v, txs)
    requires Follows(blocks, v) && forall k :: k in blocks ==> k < n
    ensures Advanced(cfg, v, txs, n, Extend(cfg, blocks, env, |v| - 1, n), m)
    ensures NeverFails(env, v) ==> Extend(cfg, blocks, env, |v| - 1, n).outcome == Completed
    decreases |v| - n
  {
    m := n;
    if n < |v| {
      ExtendOnce(cfg, blocks, env, v, txs, n);
      if Extend(cfg, blocks, env, |v| - 1, n).actions != [] {
        m := ExtendAdvances(cfg, blocks[n := BlockOf(n, v[n])], env, v, txs, n + 1);
        AdvancedCons(cfg, v, txs, n, Extend(cfg, blocks[n := BlockOf(n, v[n])], env, |v| - 1, n + 1), m);
      }
    }
  }

  /** What one Sync can do when its answers come from `v`. */
  ghost predicate SyncedTo(cfg: Config, s: State, v: View, txs: nat -> seq<Transfer>, trace: Trace, m: nat) {
    var n := Next(cfg.startBlock, s.blocks);
    || trace == Trace([], Failed)
    || (TipDiverges(s.blocks, v) && trace == Trace([Delete(n - 1)], RolledBack))
    || (Follows(s.blocks, v) && Advanced(cfg, v, txs, n, trace, m))
  }

  lemma {:induction false} SyncOnView(cfg: Config, s: State, env: Env, v: View, txs: nat -> seq<Transfer>) returns (m: nat)
    requires Indexed(cfg.startBlock, s) && Linked(v)
    requires ServesHeaders(env, v) && ServesTransfers(cfg, env, v, txs)
    ensures SyncedTo(cfg, s, v, txs, Sync(cfg, s.blocks, env), m)
    ensures TipDiverges(s.blocks, v) ==> !Sync(cfg, s.blocks, env).outcome.Completed?
    ensures NeverFails(env, v) ==>
      (Sync(cfg, s.blocks, env).outcome == Failed <==> s.blocks != map[] && MaxKey(s.blocks.Keys) >= |v|)
  {
    m := 0;
    if env.head.Some? && !env.storeFails(LastBlockCall) {
      if s.blocks == map[] {
        m := ExtendAdvances(cfg, s.blocks, env, v, txs, cfg.startBlock);
      } else {
        var tip := MaxKey(s.blocks.Keys);
        m := TipOnView(cfg, s, env, v, txs, tip);
        assert Sync(cfg, s.blocks, env) == FromTip(cfg, s.blocks, env, |v| - 1, s.blocks[tip]);
      }
    }
  }

  /** The same from the tip check on. */
  lemma {:induction false} TipOnView(cfg: Config, s: State, env: Env, v: View, txs: nat -> seq<Transfer>, tip: nat) returns (m: nat)
    requires Chained(cfg.startBlock, s.blocks) && Linked(v) && s.blocks != map[] && tip == MaxKey(s.blocks.Keys)
    requires ServesHeaders(env, v) && ServesTransfers(cfg, env, v, txs)
    ensures var trace := FromTip(cfg, s.blocks, env, |v| - 1, s.blocks[tip]);
      && SyncedTo(cfg, s, v, txs, trace, m)
      && (TipDiverges(s.blocks, v) ==> !trace.outcome.Completed?)
      && (NeverFails(env, v) ==> (trace.outcome == Failed <==> tip >= |v|))
  {
    m := 0;
    assert s.blocks[tip].number == tip;
    if env.header(tip).Some? && !TipDiverges(s.blocks, v) {
      TipMatchFollows(cfg.startBlock, s.blocks, v);
      m := ExtendAdvances(cfg, s.blocks, env, v, txs, tip + 1);
    }
  }

  /** The store follows `v` up to height `n`, and `n` is next. */
  ghost predicate At(cfg: Config, s: State, v: View, n: nat) {
    Indexed(cfg.startBlock, s) && Follows(s.blocks, v) && Next(cfg.startBlock, s.blocks) == n
  }

  lemma {:induction false} SaveMovesOn(cfg: Config, s: State, v: View, txs: nat -> seq<Transfer>, n: nat)
    requires Linked(v) && At(cfg, s, v, n) && n < |v|
    ensures At(cfg, Apply(s, SaveOf(cfg, v, txs, n)), v, n + 1)
  {
    assert BuildsOnParent(v, n);
    var save := SaveOf(cfg, v, txs, n);
    SaveKeepsIndexed(cfg.startBlock, s, save.block, save.transfers, save.confirmed);
  }

  lemma {:induction false} SavesReach(cfg: Config, s: State, v: View, txs: nat -> seq<Transfer>, n: nat, m: nat)
    requires Linked(v) && At(cfg, s, v, n) && n <= m <= Target(v, n)
    ensures At(cfg, ApplyAll(s, Saves(cfg, v, txs, n, m)), v, m)
    decreases m - n
  {
    if n < m {
      var save, rest := SaveOf(cfg, v, txs, n), Saves(cfg, v, txs, n + 1, m);
      SaveMovesOn(cfg, s, v, txs, n);
      SavesReach(cfg, Apply(s, save), v, txs, n + 1, m);
      SavesFront(cfg, v, txs, n, m);
      ApplyCons(s, save, rest);
    }
  }

  lemma {:induction false} AdvanceReaches(cfg: Config, s: State, v: View, txs: nat -> seq<Transfer>, trace: Trace, m: nat)
    requires Indexed(cfg.startBlock, s) && Linked(v) && Follows(s.blocks, v)
    requires Advanced(cfg, v, txs, Next(cfg.startBlock, s.blocks), trace, m)
    ensures var n := Next(cfg.startBlock, s.blocks); var t := ApplyAll(s, Saves(cfg, v, txs, n, m));
      && At(cfg, t, v, m)
      && (trace.outcome == Failed ==> ApplyAll(s, trace.actions) == t)
      && (trace.outcome == Completed ==> ApplyAll(s, trace.actions) == ApplyAll(t, Promotion(cfg, v)))
  {
    var n := Next(cfg.startBlock, s.blocks);
    SavesReach(cfg, s, v, txs, n, m);
    ApplyConcat(s, Saves(cfg, v, txs, n, m), Promotion(cfg, v));
  }

  /** A completed Sync leaves exactly the blocks of `v` from the start block to its head. */
  lemma {:induction false} CompletedReachesHead(cfg: Config, s: State, env: Env, v: View)
    requires Indexed(cfg.startBlock, s) && Linked(v) && ServesHeaders(env, v)
    requires Sync(cfg, s.blocks, env).outcome == Completed
    ensures SyncStep(cfg, s, env).blocks == Canon(v, cfg.startBlock)
  {
    var txs := Heard(cfg, env);
    var m := SyncOnView(cfg, s, env, v, txs);
    CompletedGivesCanon(cfg, s, v, txs, Sync(cfg, s.blocks, env), m);
  }

  lemma {:induction false} CompletedGivesCanon(cfg: Config, s: State, v: View, txs: nat -> seq<Transfer>, trace: Trace, m: nat)
    requires Indexed(cfg.startBlock, s) && Linked(v)
    requires SyncedTo(cfg, s, v, txs, trace, m) && trace.outcome == Completed
    ensures ApplyAll(s, trace.actions).blocks == Canon(v, cfg.startBlock)
  {
    AdvanceReaches(cfg, s, v, txs, trace, m);
    var t := ApplyAll(s, Saves(cfg, v, txs, Next(cfg.startBlock, s.blocks), m));
    PromotionKeepsBlocks(cfg, t, v);
    AtHeadIsCanon(cfg, t, v, m);
  }

  lemma {:induction false} AtHeadIsCanon(cfg: Config, t: State, v: View, m: nat)
    requires At(cfg, t, v, m) && (m == |v| || (m == cfg.startBlock && |v| <= m))
    ensures t.blocks == Canon(v, cfg.startBlock)
  {
  }

  /** The transfers in the logs that `env` returns, as a function of height. */
  function Heard(cfg: Config, env: Env): nat -> seq<Transfer> {
    (n: nat) => if env.logs(n).Some? then DecodeAll(cfg.topicID, env.logs(n).value) else []
  }

  lemma {:induction false} PromotionKeepsBlocks(cfg: Config, s: State, v: View)
    requires |v| > 0
    ensures ApplyAll(s, Promotion(cfg, v)).blocks == s.blocks
    ensures Promotion(cfg, v) == [] ==> ApplyAll(s, Promotion(cfg, v)) == s
    ensures Promotion(cfg, v) != [] ==>
      ApplyAll(s, Promotion(cfg, v)) == Apply(s, Confirm(|v| - 1 - cfg.confirmations))
  {
    if Promotion(cfg, v) != [] {
      ApplyOne(s, Confirm(|v| - 1 - cfg.confirmations));
    }
  }
}
