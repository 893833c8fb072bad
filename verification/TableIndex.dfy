/** The index that the Postgres tables hold after Syncs that each see one chain. */
module TableIndex {
  import opened Chain
  import opened Erc20
  import opened StoreModel
  import opened SyncSpec
  import opened ChainInvariant
  import opened OnView
  import opened IndexSpec
  import opened Interrupted
  import opened Events
  import opened Postgres
  import opened Stores
  import opened Inserts
  import opened Refinement
  import opened TableRuns

  /** Whatever chains earlier Syncs saw and wherever they were cut short, once a Sync completes
      at a head no earlier one exceeded, the tables hold the blocks of that chain and its
      transfers, the first with each key, confirmed exactly where deep; with distinct keys
      that is all of them. */
  lemma {:induction false} TablesAreFunctionOfChain(cfg: Config, envs: seq<Env>, vs: seq<View>, txsOf: Hash -> seq<Transfer>, env: Env, v: View)
    requires AllSee(cfg, envs, vs, txsOf) && Sees(cfg, env, v, txsOf)
    requires forall i :: 0 <= i < |vs| ==> |vs[i]| <= |v|
    requires Sync(cfg, PgRun(cfg, NoRows(), envs).blocks, env).outcome == Completed
    ensures var t := PgStep(cfg, PgRun(cfg, NoRows(), envs), env);
      DropsRepeats(IndexOf(cfg, v, txsOf), t) && (DistinctKeys(cfg, v, txsOf) ==> Refines(IndexOf(cfg, v, txsOf), t))
  {
    var s, t := Run(cfg, Empty(), envs), PgRun(cfg, NoRows(), envs);
    RunDropsRepeats(cfg, envs);
    StepDropsRepeats(cfg, s, t, env);
    IndexIsFunctionOfChain(cfg, envs, vs, txsOf, env, v);
    if DistinctKeys(cfg, v, txsOf) {
      DistinctIndexIsAll(cfg, v, txsOf, PgStep(cfg, t, env));
    }
  }

  lemma {:induction false} DistinctIndexIsAll(cfg: Config, v: View, txsOf: Hash -> seq<Transfer>, t: Tables)
    requires |v| > 0 && DistinctKeys(cfg, v, txsOf) && DropsRepeats(IndexOf(cfg, v, txsOf), t)
    ensures Refines(IndexOf(cfg, v, txsOf), t)
  {
    StampedIsDistinct(Collect(txsOf, Canon(v, cfg.startBlock), cfg.startBlock, |v|), cfg.confirmations, |v| - 1);
    FirstIsAllIff(IndexOf(cfg, v, txsOf).transfers);
  }

  lemma {:induction false} StampedIsDistinct(ts: seq<StoredTransfer>, depth: nat, head: nat)
    requires Distinct(ts)
    ensures Distinct(Stamp(ts, depth, head))
  {
    forall i, j | 0 <= i < j < |ts| ensures DifferentKeys(Stamp(ts, depth, head), i, j) {
      assert DifferentKeys(ts, i, j);
    }
  }

  /** After any run with any answers that left the tables on a chain, any number of Syncs cut
      short and then one complete Sync against that chain give the same blocks and rows, up
      to ids, and the same events, as one uninterrupted Sync; and another one changes and
      publishes nothing. */
  lemma {:induction false} InterruptionsDoNotMatterToTables(cfg: Config, past: seq<Env>, v: View, txs: nat -> seq<Transfer>, envs: seq<Env>, env: Env)
    requires Follows(PgRun(cfg, NoRows(), past).blocks, v) && Linked(v) && AllAnswerFrom(cfg, envs, v, txs)
    requires ServesHeaders(env, v) && ServesTransfers(cfg, env, v, txs) && NeverFails(env, v)
    ensures var t := PgRun(cfg, NoRows(), past); var u := PgRun(cfg, t, envs);
      && SameTables(PgStep(cfg, u, env), PgStep(cfg, t, env))
      && PublishAll(PgRunActions(cfg, t, envs)) + PublishAll(Sync(cfg, u.blocks, env).actions)
         == PublishAll(Sync(cfg, t.blocks, env).actions)
      && SameTables(PgStep(cfg, PgStep(cfg, t, env), env), PgStep(cfg, t, env))
      && PublishAll(Sync(cfg, PgStep(cfg, t, env).blocks, env).actions) == []
  {
    var s, t := Run(cfg, Empty(), past), PgRun(cfg, NoRows(), past);
    RunDropsRepeats(cfg, past);
    RunFromDropsRepeats(cfg, s, t, envs);
    StepDropsRepeats(cfg, s, t, env);
    StepDropsRepeats(cfg, Run(cfg, s, envs), PgRun(cfg, t, envs), env);
    StepKeepsIndexed(cfg, s, env);
    StepDropsRepeats(cfg, SyncStep(cfg, s, env), PgStep(cfg, t, env), env);
    InterruptionsDoNotMatter(cfg, s, v, txs, envs, env);
    SecondSyncIsSilent(cfg, s, v, txs, env);
  }
}
