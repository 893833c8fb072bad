/** One call of Monitor.Sync as a function: which writes it performs, in order, and how
    it ends, for any answers the outside world may give it. */
module SyncSpec {
  import opened Options
  import opened Bytes
  import opened Chain
  import opened Erc20
  import opened StoreModel

  datatype Config = Config(confirmations: nat, startBlock: nat, topicID: Word)

  datatype StoreCall =
    | LastBlockCall
    | BlockByNumberCall(number: nat)
    | SaveBlockCall(number: nat)
    | DeleteFromCall(number: nat)
    | ConfirmThroughCall(number: nat)

  /** Everything one Sync is told by the outside. No height is looked up twice in a Sync,
      so independent answers per height are answers of a backend that may lie, fail, or
      change between any two calls. */
  datatype Env = Env(
    head: Option<Header>,
    header: nat -> Option<Header>,
    logs: nat -> Option<seq<Log>>,
    cancelled: nat -> bool,
    storeFails: StoreCall -> bool)

  datatype Outcome = Completed | RolledBack | Failed

  datatype Trace = Trace(actions: seq<Action>, outcome: Outcome)

  function Rollback(env: Env, from: nat): Trace {
    if env.storeFails(DeleteFromCall(from)) then Trace([], Failed)
    else Trace([Delete(from)], RolledBack)
  }

  function Finish(cfg: Config, env: Env, head: nat): Trace {
    if head < cfg.confirmations then Trace([], Completed)
    else if env.storeFails(ConfirmThroughCall(head - cfg.confirmations)) then Trace([], Failed)
    else Trace([Confirm(head - cfg.confirmations)], Completed)
  }

  /** The loop of Sync from height `n` on. */
  function Extend(cfg: Config, blocks: map<nat, Block>, env: Env, head: nat, n: nat): Trace
    decreases head + 1 - n
  {
    if n > head then Finish(cfg, env, head)
    else if env.cancelled(n) || env.header(n).None? then Trace([], Failed)
    else if n > 0 && env.storeFails(BlockByNumberCall(n - 1)) then Trace([], Failed)
    else if n > 0 && n - 1 in blocks && blocks[n - 1].hash != env.header(n).value.parentHash then
      Rollback(env, n - 1)
    else if env.logs(n).None? || env.storeFails(SaveBlockCall(n)) then Trace([], Failed)
    else
      var b := BlockOf(n, env.header(n).value);
      var rest := Extend(cfg, blocks[n := b], env, head, n + 1);
      Trace([SaveAt(cfg, env, head, n)] + rest.actions, rest.outcome)
  }

  function SaveAt(cfg: Config, env: Env, head: nat, n: nat): Action
    requires n <= head && env.header(n).Some? && env.logs(n).Some?
  {
    Save(BlockOf(n, env.header(n).value), DecodeAll(cfg.topicID, env.logs(n).value), head - n >= cfg.confirmations)
  }

  /** The tip check against the highest stored block, and the loop above it. */
  function FromTip(cfg: Config, blocks: map<nat, Block>, env: Env, head: nat, last: Block): Trace {
    if env.header(last.number).None? then Trace([], Failed)
    else if HashOf(env.header(last.number).value) != last.hash then Rollback(env, last.number)
    else Extend(cfg, blocks, env, head, last.number + 1)
  }

  ghost function Sync(cfg: Config, blocks: map<nat, Block>, env: Env): Trace {
    if env.head.None? || env.storeFails(LastBlockCall) then Trace([], Failed)
    else if blocks == map[] then Extend(cfg, blocks, env, env.head.value.number, cfg.startBlock)
    else FromTip(cfg, blocks, env, env.head.value.number, blocks[MaxKey(blocks.Keys)])
  }

  ghost function SyncStep(cfg: Config, s: State, env: Env): State {
    ApplyAll(s, Sync(cfg, s.blocks, env).actions)
  }

  /** The store after one Sync per element of `envs`. */
  ghost function Run(cfg: Config, s: State, envs: seq<Env>): State {
    if envs == [] then s
    else SyncStep(cfg, Run(cfg, s, envs[..|envs| - 1]), envs[|envs| - 1])
  }

  /** All writes of a run, in order. */
  ghost function RunActions(cfg: Config, s: State, envs: seq<Env>): seq<Action> {
    if envs == [] then []
    else
      var front := envs[..|envs| - 1];
      RunActions(cfg, s, front) + Sync(cfg, Run(cfg, s, front).blocks, envs[|envs| - 1]).actions
  }

  lemma {:induction false} RunAppliesItsActions(cfg: Config, s: State, envs: seq<Env>)
    ensures Run(cfg, s, envs) == ApplyAll(s, RunActions(cfg, s, envs))
  {
    if envs != [] {
      var front := envs[..|envs| - 1];
      RunAppliesItsActions(cfg, s, front);
      ApplyConcat(s, RunActions(cfg, s, front), Sync(cfg, Run(cfg, s, front).blocks, envs[|envs| - 1]).actions);
    }
  }

  lemma {:induction false} RunSnoc(cfg: Config, s: State, envs: seq<Env>, env: Env)
    ensures Run(cfg, s, envs + [env]) == SyncStep(cfg, Run(cfg, s, envs), env)
  {
    assert (envs + [env])[..|envs|] == envs;
  }

  lemma {:induction false} RunAppend(cfg: Config, s: State, envs: seq<Env>, more: seq<Env>)
    ensures Run(cfg, s, envs + more) == Run(cfg, Run(cfg, s, envs), more)
    decreases |more|
  {
    if more == [] {
      assert envs + more == envs;
    } else {
      var k := |more| - 1;
      RunAppend(cfg, s, envs, more[..k]);
      assert (envs + more)[..|envs + more| - 1] == envs + more[..k];
    }
  }
}
