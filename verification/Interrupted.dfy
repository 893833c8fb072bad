/** Progress is not lost when Syncs are cut short. */
module Interrupted {
  import opened Seqs
  import opened Chain
  import opened Erc20
  import opened StoreModel
  import opened SyncSpec
  import opened ChainInvariant
  import opened OnView
  import opened Events

  /** The writes an uninterrupted Sync makes from a store that follows `v`. */
  ghost function Remaining(cfg: Config, s: State, v: View, txs: nat -> seq<Transfer>): seq<Action>
    requires |v| > 0
  {
    var n := Next(cfg.startBlock, s.blocks);
    Saves(cfg, v, txs, n, Target(v, n)) + Promotion(cfg, v)
  }

  /** Any call may fail, but what is answered comes from `v` and `txs`. */
  ghost predicate AllAnswerFrom(cfg: Config, envs: seq<Env>, v: View, txs: nat -> seq<Transfer>) {
    forall i :: 0 <= i < |envs| ==> ServesHeaders(envs[i], v) && ServesTransfers(cfg, envs[i], v, txs)
  }

  ghost predicate OnTrack(cfg: Config, s: State, v: View) {
    Indexed(cfg.startBlock, s) && Follows(s.blocks, v)
  }

  lemma {:induction false} SavesJoin(cfg: Config, v: View, txs: nat -> seq<Transfer>, n: nat, k: nat, m: nat)
    requires n <= k <= m && (m <= |v| || m == n)
    ensures Saves(cfg, v, txs, n, k) + Saves(cfg, v, txs, k, m) == Saves(cfg, v, txs, n, m)
    decreases m
  {
    if k < m {
      SavesJoin(cfg, v, txs, n, k, m - 1);
    }
  }

  lemma {:induction false} PromoteTwice(s: State, n: nat)
    ensures Apply(Apply(s, Confirm(n)), Confirm(n)) == Apply(s, Confirm(n))
  {
    var once := Promote(s.transfers, n);
    assert Promote(once, n) == once;
  }

  /** A Sync on an on-track store, however it ends, leaves an on-track store from which
      the uninterrupted Sync reaches the same store, with the rest of the same events. */
  lemma {:induction false} SyncKeepsGoal(cfg: Config, s: State, v: View, txs: nat -> seq<Transfer>, trace: Trace, m: nat)
    requires OnTrack(cfg, s, v) && Linked(v) && SyncedTo(cfg, s, v, txs, trace, m)
    ensures var s' := ApplyAll(s, trace.actions);
      && OnTrack(cfg, s', v)
      && ApplyAll(s', Remaining(cfg, s', v, txs)) == ApplyAll(s, Remaining(cfg, s, v, txs))
      && PublishAll(trace.actions) + PublishAll(Remaining(cfg, s', v, txs)) == PublishAll(Remaining(cfg, s, v, txs))
  {
    if trace.actions == [] {
      assert [] + PublishAll(Remaining(cfg, s, v, txs)) == PublishAll(Remaining(cfg, s, v, txs));
    } else {
      assert !TipDiverges(s.blocks, v);
      AdvanceKeepsGoal(cfg, s, v, txs, trace, m);
    }
  }

  lemma {:induction false} AdvanceKeepsGoal(cfg: Config, s: State, v: View, txs: nat -> seq<Transfer>, trace: Trace, m: nat)
    requires OnTrack(cfg, s, v) && Linked(v) && Advanced(cfg, v, txs, Next(cfg.startBlock, s.blocks), trace, m)
    ensures var s' := ApplyAll(s, trace.actions);
      && OnTrack(cfg, s', v)
      && ApplyAll(s', Remaining(cfg, s', v, txs)) == ApplyAll(s, Remaining(cfg, s, v, txs))
      && PublishAll(trace.actions) + PublishAll(Remaining(cfg, s', v, txs)) == PublishAll(Remaining(cfg, s, v, txs))
  {
    var n := Next(cfg.startBlock, s.blocks);
    if trace.outcome == Failed {
      SavesReach(cfg, s, v, txs, n, m);
      StopKeepsGoal(cfg, s, v, txs, n, m);
    } else {
      FinishKeepsGoal(cfg, s, v, txs, n, m);
    }
  }

  lemma {:induction false} StopKeepsGoal(cfg: Config, s: State, v: View, txs: nat -> seq<Transfer>, n: nat, m: nat)
    requires OnTrack(cfg, s, v) && Linked(v) && n == Next(cfg.startBlock, s.blocks) && n <= m <= Target(v, n)
    ensures var done := Saves(cfg, v, txs, n, m); var s' := ApplyAll(s, done);
      && ApplyAll(s', Remaining(cfg, s', v, txs)) == ApplyAll(s, Remaining(cfg, s, v, txs))
      && PublishAll(done) + PublishAll(Remaining(cfg, s', v, txs)) == PublishAll(Remaining(cfg, s, v, txs))
  {
    var done := Saves(cfg, v, txs, n, m);
    var rest := Saves(cfg, v, txs, m, Target(v, m));
    SavesReach(cfg, s, v, txs, n, m);
    SavesJoin(cfg, v, txs, n, m, Target(v, n));
    Assoc(done, rest, Promotion(cfg, v));
    ApplyConcat(s, done, rest + Promotion(cfg, v));
    FlatMapConcat(Publish, done, rest + Promotion(cfg, v));
  }

  lemma {:induction false} FinishKeepsGoal(cfg: Config, s: State, v: View, txs: nat -> seq<Transfer>, n: nat, m: nat)
    requires OnTrack(cfg, s, v) && Linked(v) && n == Next(cfg.startBlock, s.blocks) && m == Target(v, n)
    ensures var done := Saves(cfg, v, txs, n, m) + Promotion(cfg, v); var s' := ApplyAll(s, done);
      && OnTrack(cfg, s', v)
      && ApplyAll(s', Remaining(cfg, s', v, txs)) == s'
      && done == Remaining(cfg, s, v, txs)
      && PublishAll(Remaining(cfg, s', v, txs)) == []
  {
    SavesReach(cfg, s, v, txs, n, m);
    ApplyConcat(s, Saves(cfg, v, txs, n, m), Promotion(cfg, v));
    PromotedIsDone(cfg, ApplyAll(s, Saves(cfg, v, txs, n, m)), v, txs, m);
  }

  lemma {:induction false} PromotedIsDone(cfg: Config, t: State, v: View, txs: nat -> seq<Transfer>, m: nat)
    requires At(cfg, t, v, m) && |v| <= m && |v| > 0
    ensures var s' := ApplyAll(t, Promotion(cfg, v));
      && OnTrack(cfg, s', v)
      && ApplyAll(s', Remaining(cfg, s', v, txs)) == s'
      && PublishAll(Remaining(cfg, s', v, txs)) == []
  {
    PromotionKeepsBlocks(cfg, t, v);
    PromotionTwice(cfg, t, v);
    var s' := ApplyAll(t, Promotion(cfg, v));
    assert Remaining(cfg, s', v, txs) == Promotion(cfg, v);
  }

  lemma {:induction false} PromotionTwice(cfg: Config, t: State, v: View)
    requires |v| > 0
    ensures var s' := ApplyAll(t, Promotion(cfg, v)); ApplyAll(s', Promotion(cfg, v)) == s'
    ensures PublishAll(Promotion(cfg, v)) == []
  {
    PromotionKeepsBlocks(cfg, t, v);
    PromotionKeepsBlocks(cfg, ApplyAll(t, Promotion(cfg, v)), v);
    if Promotion(cfg, v) != [] {
      PromoteTwice(t, |v| - 1 - cfg.confirmations);
      FlatMapSnoc(Publish, [], Promotion(cfg, v)[0]);
      assert [] + Promotion(cfg, v) == Promotion(cfg, v);
    }
  }

  lemma {:induction false} RunKeepsGoal(cfg: Config, s: State, v: View, txs: nat -> seq<Transfer>, envs: seq<Env>)
    requires OnTrack(cfg, s, v) && Linked(v) && AllAnswerFrom(cfg, envs, v, txs)
    ensures var t := Run(cfg, s, envs);
      && OnTrack(cfg, t, v)
      && ApplyAll(t, Remaining(cfg, t, v, txs)) == ApplyAll(s, Remaining(cfg, s, v, txs))
      && PublishAll(RunActions(cfg, s, envs)) + PublishAll(Remaining(cfg, t, v, txs))
         == PublishAll(Remaining(cfg, s, v, txs))
  {
    if envs == [] {
      assert [] + PublishAll(Remaining(cfg, s, v, txs)) == PublishAll(Remaining(cfg, s, v, txs));
    } else {
      var front, env := envs[..|envs| - 1], envs[|envs| - 1];
      RunKeepsGoal(cfg, s, v, txs, front);
      var t := Run(cfg, s, front);
      var m := SyncOnView(cfg, t, env, v, txs);
      var trace := Sync(cfg, t.blocks, env);
      SyncKeepsGoal(cfg, t, v, txs, trace, m);
      FlatMapConcat(Publish, RunActions(cfg, s, front), trace.actions);
      Assoc(PublishAll(RunActions(cfg, s, front)), PublishAll(trace.actions),
            PublishAll(Remaining(cfg, ApplyAll(t, trace.actions), v, txs)));
    }
  }

  lemma {:induction false} CompleteSyncDoesRemaining(cfg: Config, s: State, v: View, txs: nat -> seq<Transfer>, env: Env)
    requires OnTrack(cfg, s, v) && Linked(v)
    requires ServesHeaders(env, v) && ServesTransfers(cfg, env, v, txs) && NeverFails(env, v)
    ensures Sync(cfg, s.blocks, env) == Trace(Remaining(cfg, s, v, txs), Completed)
  {
    var m := SyncOnView(cfg, s, env, v, txs);
    assert s.blocks != map[] ==> MaxKey(s.blocks.Keys) in s.blocks;
  }

  /** Any number of Syncs cut short by failures or cancellation, then one complete Sync, give
      the same store and the same events as one uninterrupted Sync. */
  lemma {:induction false} InterruptionsDoNotMatter(cfg: Config, s: State, v: View, txs: nat -> seq<Transfer>, envs: seq<Env>, env: Env)
    requires OnTrack(cfg, s, v) && Linked(v) && AllAnswerFrom(cfg, envs, v, txs)
    requires ServesHeaders(env, v) && ServesTransfers(cfg, env, v, txs) && NeverFails(env, v)
    ensures var t := Run(cfg, s, envs);
      && SyncStep(cfg, t, env) == SyncStep(cfg, s, env)
      && PublishAll(RunActions(cfg, s, envs)) + PublishAll(Sync(cfg, t.blocks, env).actions)
         == PublishAll(Sync(cfg, s.blocks, env).actions)
  {
    RunKeepsGoal(cfg, s, v, txs, envs);
    CompleteSyncDoesRemaining(cfg, s, v, txs, env);
    CompleteSyncDoesRemaining(cfg, Run(cfg, s, envs), v, txs, env);
  }

  /** After a complete Sync, another one against the same chain changes nothing and
      publishes nothing. */
  lemma {:induction false} SecondSyncIsSilent(cfg: Config, s: State, v: View, txs: nat -> seq<Transfer>, env: Env)
    requires OnTrack(cfg, s, v) && Linked(v)
    requires ServesHeaders(env, v) && ServesTransfers(cfg, env, v, txs) && NeverFails(env, v)
    ensures var t := SyncStep(cfg, s, env);
      SyncStep(cfg, t, env) == t && PublishAll(Sync(cfg, t.blocks, env).actions) == []
  {
    CompleteSyncDoesRemaining(cfg, s, v, txs, env);
    var n := Next(cfg.startBlock, s.blocks);
    FinishKeepsGoal(cfg, s, v, txs, n, Target(v, n));
    CompleteSyncDoesRemaining(cfg, SyncStep(cfg, s, env), v, txs, env);
  }
}
