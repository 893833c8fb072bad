/** What every run keeps, whatever the backend answers: the stored blocks are one linked
    chain from the start block, transfers follow it in order, and a rollback takes the tip. */
module ChainInvariant {
  import opened Seqs
  import opened Chain
  import opened Erc20
  import opened StoreModel
  import opened SyncSpec

  /** The next height to index. */
  ghost function Next(start: nat, blocks: map<nat, Block>): nat {
    if blocks == map[] then start else MaxKey(blocks.Keys) + 1
  }

  /** The entry was made from a header with that hash. */
  predicate Authentic(b: Block) {
    b.hash.Digest? && b.hash.header.parentHash == b.parentHash && b.hash.header.time == b.time
  }

  predicate LinkedAt(blocks: map<nat, Block>, n: nat) {
    n > 0 && n in blocks && n - 1 in blocks && blocks[n].parentHash == blocks[n - 1].hash
  }

  /** The stored heights are exactly [start, Next), and each block builds on the one below. */
  ghost predicate Chained(start: nat, blocks: map<nat, Block>) {
    && (forall n :: n in blocks <==> start <= n < Next(start, blocks))
    && (forall n :: n in blocks ==> blocks[n].number == n && Authentic(blocks[n]))
    && (forall n :: start < n < Next(start, blocks) ==> LinkedAt(blocks, n))
  }

  ghost predicate Sorted(ts: seq<StoredTransfer>) {
    forall i, j :: 0 <= i < j < |ts| ==> ts[i].block <= ts[j].block
  }

  ghost predicate Referenced(s: State) {
    forall i :: 0 <= i < |s.transfers| ==> s.transfers[i].block in s.blocks
  }

  ghost predicate Indexed(start: nat, s: State) {
    Chained(start, s.blocks) && Sorted(s.transfers) && Referenced(s)
  }

  lemma {:induction false} NextOfSpan(start: nat, blocks: map<nat, Block>, n: nat)
    requires start <= n
    requires forall k :: k in blocks <==> start <= k < n
    ensures Next(start, blocks) == n
  {
    assert start < n ==> n - 1 in blocks.Keys;
    if blocks != map[] {
      assert MaxKey(blocks.Keys) in blocks;
    }
  }

  lemma {:induction false} BelowMembers(ts: seq<StoredTransfer>, n: nat)
    ensures forall i :: 0 <= i < |Below(ts, n)| ==> Below(ts, n)[i] in ts && Below(ts, n)[i].block < n
  {
    if ts != [] {
      BelowMembers(ts[..|ts| - 1], n);
    }
  }

  lemma {:induction false} AllBelow(ts: seq<StoredTransfer>, n: nat)
    requires forall i :: 0 <= i < |ts| ==> ts[i].block < n
    ensures Below(ts, n) == ts
  {
    if ts != [] {
      AllBelow(ts[..|ts| - 1], n);
    }
  }

  /** On transfers sorted by height, the filter of DeleteFrom is a prefix truncation. */
  lemma {:induction false} BelowTruncates(ts: seq<StoredTransfer>, n: nat)
    requires Sorted(ts)
    ensures |Below(ts, n)| <= |ts| && Below(ts, n) == ts[..|Below(ts, n)|]
    ensures forall i :: |Below(ts, n)| <= i < |ts| ==> ts[i].block >= n
  {
    if ts != [] {
      if ts[|ts| - 1].block < n {
        AllBelow(ts, n);
      } else {
        var front := ts[..|ts| - 1];
        BelowTruncates(front, n);
        assert forall i :: 0 <= i < |front| ==> front[i] == ts[i];
      }
    }
  }

  lemma {:induction false} SaveKeepsIndexed(start: nat, s: State, b: Block, ts: seq<Transfer>, c: bool)
    requires Indexed(start, s)
    requires b.number == Next(start, s.blocks) && Authentic(b)
    requires b.number - 1 in s.blocks ==> s.blocks[b.number - 1].hash == b.parentHash
    ensures Indexed(start, Apply(s, Save(b, ts, c)))
    ensures Next(start, Apply(s, Save(b, ts, c)).blocks) == b.number + 1
  {
    var n := b.number;
    var s' := Apply(s, Save(b, ts, c));
    assert forall k :: k in s'.blocks <==> start <= k < n + 1;
    NextOfSpan(start, s'.blocks, n + 1);
    forall k | start < k < n + 1 ensures LinkedAt(s'.blocks, k) {
      if k < n {
        assert LinkedAt(s.blocks, k);
      }
    }
  }

  /** Rolling back the highest stored height removes that block and its transfers, and
      nothing else. */
  lemma {:induction false} DeleteTipIsMinimal(start: nat, s: State)
    requires Indexed(start, s) && s.blocks != map[]
    ensures var tip := MaxKey(s.blocks.Keys); var s' := Apply(s, Delete(tip));
      && Indexed(start, s') && Next(start, s'.blocks) == tip
      && s'.blocks == s.blocks - {tip}
      && |s'.transfers| <= |s.transfers| && s'.transfers == s.transfers[..|s'.transfers|]
      && (forall i :: 0 <= i < |s'.transfers| ==> s.transfers[i].block < tip)
      && (forall i :: |s'.transfers| <= i < |s.transfers| ==> s.transfers[i].block == tip)
  {
    var tip := MaxKey(s.blocks.Keys);
    TruncateBlocks(start, s.blocks);
    TruncateTransfers(s.transfers, tip);
  }

  lemma {:induction false} TruncateBlocks(start: nat, blocks: map<nat, Block>)
    requires Chained(start, blocks) && blocks != map[]
    ensures var tip := MaxKey(blocks.Keys); var below := BlocksBelow(blocks, tip);
      Chained(start, below) && Next(start, below) == tip && below == blocks - {tip}
  {
    var tip := MaxKey(blocks.Keys);
    var below := BlocksBelow(blocks, tip);
    assert forall k :: k in below <==> start <= k < tip;
    NextOfSpan(start, below, tip);
    forall k | start < k < tip ensures LinkedAt(below, k) {
      assert LinkedAt(blocks, k);
    }
  }

  lemma {:induction false} TruncateTransfers(ts: seq<StoredTransfer>, tip: nat)
    requires Sorted(ts) && forall i :: 0 <= i < |ts| ==> ts[i].block <= tip
    ensures var kept := Below(ts, tip);
      && |kept| <= |ts| && kept == ts[..|kept|]
      && (forall i :: 0 <= i < |kept| ==> ts[i].block < tip)
      && (forall i :: |kept| <= i < |ts| ==> ts[i].block == tip)
  {
    BelowTruncates(ts, tip);
    BelowMembers(ts, tip);
  }

  /** The writes of one Sync from `s`: saves that each extend the tip with a block linked
      to it, then possibly one rollback of the tip or one promotion, and nothing after. */
  ghost predicate Disciplined(start: nat, s: State, actions: seq<Action>)
    decreases |actions|
  {
    actions == [] ||
    match actions[0]
    case Save(b, ts, c) =>
      && b.number == Next(start, s.blocks) && Authentic(b)
      && (b.number - 1 in s.blocks ==> s.blocks[b.number - 1].hash == b.parentHash)
      && Disciplined(start, Apply(s, actions[0]), actions[1..])
    case Delete(n) => |actions| == 1 && s.blocks != map[] && n == MaxKey(s.blocks.Keys)
    case Confirm(_) => |actions| == 1
  }

  /** How the loop goes on from height `n`. */
  ghost predicate Continues(cfg: Config, blocks: map<nat, Block>, env: Env, head: nat, n: nat, actions: seq<Action>)
    requires actions != []
  {
    match actions[0]
    case Save(b, _, _) =>
      && n <= head && env.header(n).Some? && b == BlockOf(n, env.header(n).value)
      && (n > 0 && n - 1 in blocks ==> blocks[n - 1].hash == b.parentHash)
      && actions[1..] == Extend(cfg, blocks[n := b], env, head, n + 1).actions
    case Delete(k) => |actions| == 1 && n > 0 && k == n - 1 && k in blocks
    case Confirm(_) => |actions| == 1
  }

  lemma {:induction false} ExtendContinues(cfg: Config, blocks: map<nat, Block>, env: Env, head: nat, n: nat)
    ensures var actions := Extend(cfg, blocks, env, head, n).actions;
      actions != [] ==> Continues(cfg, blocks, env, head, n, actions)
  {
  }

  lemma {:induction false} ExtendIsDisciplined(cfg: Config, s: State, env: Env, head: nat, n: nat)
    requires Indexed(cfg.startBlock, s) && n == Next(cfg.startBlock, s.blocks)
    ensures Disciplined(cfg.startBlock, s, Extend(cfg, s.blocks, env, head, n).actions)
    decreases head + 1 - n
  {
    var actions := Extend(cfg, s.blocks, env, head, n).actions;
    ExtendContinues(cfg, s.blocks, env, head, n);
    if actions != [] {
      if actions[0].Save? {
        SaveKeepsIndexed(cfg.startBlock, s, actions[0].block, actions[0].transfers, actions[0].confirmed);
        ExtendIsDisciplined(cfg, Apply(s, actions[0]), env, head, n + 1);
      }
      ContinuesDisciplined(cfg, s, env, head, n, actions);
    }
  }

  lemma {:induction false} ContinuesDisciplined(cfg: Config, s: State, env: Env, head: nat, n: nat, actions: seq<Action>)
    requires Chained(cfg.startBlock, s.blocks) && n == Next(cfg.startBlock, s.blocks)
    requires actions != [] && Continues(cfg, s.blocks, env, head, n, actions)
    requires actions[0].Save? ==> Disciplined(cfg.startBlock, Apply(s, actions[0]), actions[1..])
    ensures Disciplined(cfg.startBlock, s, actions)
  {
  }

  lemma {:induction false} SyncIsDisciplined(cfg: Config, s: State, env: Env)
    requires Indexed(cfg.startBlock, s)
    ensures Disciplined(cfg.startBlock, s, Sync(cfg, s.blocks, env).actions)
  {
    if env.head.Some? {
      ExtendIsDisciplined(cfg, s, env, env.head.value.number, Next(cfg.startBlock, s.blocks));
    }
  }

  lemma {:induction false} ApplyKeepsIndexed(start: nat, s: State, actions: seq<Action>)
    requires Indexed(start, s) && Disciplined(start, s, actions) && actions != []
    ensures Indexed(start, Apply(s, actions[0]))
  {
    match actions[0]
    case Save(b, ts, c) => SaveKeepsIndexed(start, s, b, ts, c);
    case Delete(n) => DeleteTipIsMinimal(start, s);
    case Confirm(_) =>
  }

  /** The store is indexed after every prefix of the writes of a Sync. */
  lemma {:induction false} PrefixKeepsIndexed(start: nat, s: State, actions: seq<Action>, k: nat)
    requires Indexed(start, s) && Disciplined(start, s, actions) && k <= |actions|
    ensures Indexed(start, ApplyAll(s, actions[..k]))
    ensures Disciplined(start, ApplyAll(s, actions[..k]), actions[k..])
    decreases |actions|
  {
    if k > 0 {
      ApplyKeepsIndexed(start, s, actions);
      SplitFirst(actions, k);
      ApplyCons(s, actions[0], actions[1..][..k - 1]);
      if actions[0].Save? {
        PrefixKeepsIndexed(start, Apply(s, actions[0]), actions[1..], k - 1);
      }
    } else {
      assert actions[..k] == [] && actions[k..] == actions;
    }
  }

  /** All writes of a Sync but the last are saves. */
  lemma {:induction false} SavesBeforeLast(start: nat, s: State, actions: seq<Action>)
    requires Disciplined(start, s, actions)
    ensures forall j :: 0 <= j < |actions| - 1 ==> actions[j].Save?
    decreases |actions|
  {
    if |actions| > 1 {
      SavesBeforeLast(start, Apply(s, actions[0]), actions[1..]);
      assert forall j :: 0 < j < |actions| - 1 ==> actions[j] == actions[1..][j - 1];
    }
  }

  lemma {:induction false} StepKeepsIndexed(cfg: Config, s: State, env: Env)
    requires Indexed(cfg.startBlock, s)
    ensures Indexed(cfg.startBlock, SyncStep(cfg, s, env))
  {
    var actions := Sync(cfg, s.blocks, env).actions;
    SyncIsDisciplined(cfg, s, env);
    PrefixKeepsIndexed(cfg.startBlock, s, actions, |actions|);
    assert actions[..|actions|] == actions;
  }

  lemma {:induction false} RunKeepsIndexed(cfg: Config, s: State, envs: seq<Env>)
    requires Indexed(cfg.startBlock, s)
    ensures Indexed(cfg.startBlock, Run(cfg, s, envs))
  {
    if envs != [] {
      RunKeepsIndexed(cfg, s, envs[..|envs| - 1]);
      StepKeepsIndexed(cfg, Run(cfg, s, envs[..|envs| - 1]), envs[|envs| - 1]);
    }
  }

  /** From an empty store, with any answers at all, the index is one linked chain from the
      start block with its transfers sorted and referring to it: after any number of Syncs
      and after every write inside the next one. */
  lemma {:induction false} IndexedAtEveryWrite(cfg: Config, envs: seq<Env>, env: Env, k: nat)
    requires k <= |Sync(cfg, Run(cfg, Empty(), envs).blocks, env).actions|
    ensures var s := Run(cfg, Empty(), envs);
      Indexed(cfg.startBlock, ApplyAll(s, Sync(cfg, s.blocks, env).actions[..k]))
  {
    RunKeepsIndexed(cfg, Empty(), envs);
    var s := Run(cfg, Empty(), envs);
    SyncIsDisciplined(cfg, s, env);
    PrefixKeepsIndexed(cfg.startBlock, s, Sync(cfg, s.blocks, env).actions, k);
  }

  /** On every run a rollback is the last write of its Sync, and it removes exactly the
      highest stored block and that block's transfers. */
  lemma {:induction false} RollbackIsMinimalAndFinal(cfg: Config, envs: seq<Env>, env: Env, k: nat)
    requires k < |Sync(cfg, Run(cfg, Empty(), envs).blocks, env).actions|
    requires Sync(cfg, Run(cfg, Empty(), envs).blocks, env).actions[k].Delete?
    ensures var s := Run(cfg, Empty(), envs); var trace := Sync(cfg, s.blocks, env);
      var before := ApplyAll(s, trace.actions[..k]); var after := SyncStep(cfg, s, env);
      && k == |trace.actions| - 1 && trace.outcome == RolledBack
      && before.blocks != map[] && trace.actions[k].from == MaxKey(before.blocks.Keys)
      && after.blocks == before.blocks - {trace.actions[k].from}
      && |after.transfers| <= |before.transfers|
      && after.transfers == before.transfers[..|after.transfers|]
      && (forall i :: 0 <= i < |after.transfers| ==> before.transfers[i].block < trace.actions[k].from)
      && (forall i :: |after.transfers| <= i < |before.transfers| ==>
            before.transfers[i].block == trace.actions[k].from)
  {
    RunKeepsIndexed(cfg, Empty(), envs);
    var s := Run(cfg, Empty(), envs);
    RollbackIsLastWrite(cfg, s, env, k);
    DeleteTipIsMinimal(cfg.startBlock, ApplyAll(s, Sync(cfg, s.blocks, env).actions[..k]));
  }

  lemma {:induction false} RollbackIsLastWrite(cfg: Config, s: State, env: Env, k: nat)
    requires Indexed(cfg.startBlock, s) && k < |Sync(cfg, s.blocks, env).actions|
    requires Sync(cfg, s.blocks, env).actions[k].Delete?
    ensures var trace := Sync(cfg, s.blocks, env); var before := ApplyAll(s, trace.actions[..k]);
      && k == |trace.actions| - 1 && trace.outcome == RolledBack
      && Indexed(cfg.startBlock, before) && before.blocks != map[]
      && trace.actions[k].from == MaxKey(before.blocks.Keys) && SyncStep(cfg, s, env) == Apply(before, trace.actions[k])
  {
    var actions := Sync(cfg, s.blocks, env).actions;
    SyncIsDisciplined(cfg, s, env);
    PrefixKeepsIndexed(cfg.startBlock, s, actions, k);
    assert actions[k..][0] == actions[k] && actions == actions[..k] + [actions[k]];
    ApplySnoc(s, actions[..k], actions[k]);
    OutcomeOfSync(cfg, s.blocks, env, k);
  }

  lemma {:induction false} OutcomeOfExtend(cfg: Config, blocks: map<nat, Block>, env: Env, head: nat, n: nat, k: nat)
    requires k < |Extend(cfg, blocks, env, head, n).actions|
    requires Extend(cfg, blocks, env, head, n).actions[k].Delete?
    ensures Extend(cfg, blocks, env, head, n).outcome == RolledBack
    decreases head + 1 - n
  {
    if k > 0 {
      OutcomeOfExtend(cfg, blocks[n := BlockOf(n, env.header(n).value)], env, head, n + 1, k - 1);
    }
  }

  lemma {:induction false} OutcomeOfSync(cfg: Config, blocks: map<nat, Block>, env: Env, k: nat)
    requires k < |Sync(cfg, blocks, env).actions| && Sync(cfg, blocks, env).actions[k].Delete?
    ensures Sync(cfg, blocks, env).outcome == RolledBack
  {
    if blocks == map[] {
      OutcomeOfExtend(cfg, blocks, env, env.head.value.number, cfg.startBlock, k);
    } else {
      var last := blocks[MaxKey(blocks.Keys)];
      if HashOf(env.header(last.number).value) == last.hash {
        OutcomeOfExtend(cfg, blocks, env, env.head.value.number, last.number + 1, k);
      }
    }
  }
}
