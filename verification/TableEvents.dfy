/** The events of runs on the Postgres store: they tell a consumer its blocks, and its
    transfers as long as no conflict drops one. */
module TableEvents {
  import opened Options
  import opened Bytes
  import opened Chain
  import opened Erc20
  import opened StoreModel
  import opened SyncSpec
  import opened ChainInvariant
  import opened Events
  import opened Postgres
  import opened Inserts
  import opened Refinement
  import opened TableRuns

  /** With any answers, Syncs on the tables make the writes they make in memory. */
  lemma {:induction false} SameWrites(cfg: Config, envs: seq<Env>)
    ensures PgRunActions(cfg, NoRows(), envs) == RunActions(cfg, Empty(), envs)
    ensures PgRun(cfg, NoRows(), envs) == PgApplyAll(NoRows(), PgRunActions(cfg, NoRows(), envs))
  {
    RunFromDropsRepeats(cfg, Empty(), NoRows(), envs);
    if envs != [] {
      var front, env := envs[..|envs| - 1], envs[|envs| - 1];
      SameWrites(cfg, front);
      PgApplyConcat(NoRows(), PgRunActions(cfg, NoRows(), front), Sync(cfg, PgRun(cfg, NoRows(), front).blocks, env).actions);
    }
  }

  ghost predicate MirrorsTables(r: Replica, t: Tables) {
    Mirrors(r, State(t.blocks, Forget(t.rows)))
  }

  /** With any answers, replaying the events of a run on the tables gives the tables' heights
      and hashes; every row is carried by an event, in order; and the transfer events left are
      exactly the rows if and only if no two of the transfers announced and not rolled back,
      which are those the in-memory store would hold, share a transaction hash and log index. */
  lemma {:induction false} ReplayRebuildsTables(cfg: Config, envs: seq<Env>)
    ensures var t := PgRun(cfg, NoRows(), envs); var announced := Run(cfg, Empty(), envs).transfers;
      var r := Replay(NoEvents(), PublishAll(PgRunActions(cfg, NoRows(), envs)));
      && r.hashes == (map n | n in t.blocks :: t.blocks[n].hash)
      && |announced| == |r.transfers| && (forall i :: 0 <= i < |announced| ==> Carries(r.transfers[i], announced[i]))
      && Forget(t.rows) == FirstPerKey(announced)
      && (MirrorsTables(r, t) <==> Distinct(announced))
  {
    SameWrites(cfg, envs);
    RunDropsRepeats(cfg, envs);
    ReplayRebuildsStore(cfg, envs);
    FirstIsAllIff(Run(cfg, Empty(), envs).transfers);
  }

  // The same at every write: exact as long as no save has met a conflict.

  ghost function TablesAfter(writes: seq<Action>, k: nat): Tables
    requires k <= |writes|
  {
    PgApplyAll(NoRows(), writes[..k])
  }

  /** After the first `k` writes and their events, the replica holds exactly the rows. */
  ghost predicate MirrorAt(writes: seq<Action>, k: nat)
    requires k <= |writes|
  {
    MirrorsTables(Replay(NoEvents(), PublishAll(writes[..k])), TablesAfter(writes, k))
  }

  /** Write `k`, if it is a save, meets no conflict. */
  ghost predicate FreshAt(writes: seq<Action>, k: nat)
    requires k < |writes|
  {
    writes[k].Save? ==> FreshKeys(TablesAfter(writes, k).rows, writes[k].transfers)
  }

  lemma {:induction false} AfterOneMore(writes: seq<Action>, k: nat)
    requires k < |writes|
    ensures TablesAfter(writes, k + 1) == PgApply(TablesAfter(writes, k), writes[k])
    ensures ApplyAll(Empty(), writes[..k + 1]) == Apply(ApplyAll(Empty(), writes[..k]), writes[k])
  {
    assert writes[..k + 1] == writes[..k] + [writes[k]];
    PgApplyConcat(NoRows(), writes[..k], [writes[k]]);
    PgApplyOne(TablesAfter(writes, k), writes[k]);
    ApplySnoc(Empty(), writes[..k], writes[k]);
  }

  lemma {:induction false} WriteAgrees(s: State, t: Tables, a: Action)
    requires Agree(s, t) && (a.Save? ==> FreshKeys(t.rows, a.transfers))
    ensures Agree(Apply(s, a), PgApply(t, a))
  {
    StatementsKeepLegal(t, a);
    match a
    case Save(b, xs, c) => SaveAgreesIffFresh(s, t, b, xs, c);
    case Delete(n) => DeleteAgrees(s, t, n);
    case Confirm(n) => ConfirmAgrees(s, t, n);
  }

  lemma {:induction false} FreshWritesAgree(writes: seq<Action>, k: nat)
    requires k <= |writes| && forall j :: 0 <= j < k ==> FreshAt(writes, j)
    ensures Agree(ApplyAll(Empty(), writes[..k]), TablesAfter(writes, k))
  {
    if k == 0 {
      assert writes[..k] == [];
    } else {
      FreshWritesAgree(writes, k - 1);
      AfterOneMore(writes, k - 1);
      assert FreshAt(writes, k - 1);
      WriteAgrees(ApplyAll(Empty(), writes[..k - 1]), TablesAfter(writes, k - 1), writes[k - 1]);
    }
  }

  /** The replica always holds as many transfers as were saved and not deleted. */
  lemma {:induction false} ReplicaSize(writes: seq<Action>, k: nat)
    requires k <= |writes|
    ensures |Replay(NoEvents(), PublishAll(writes[..k])).transfers| == |ApplyAll(Empty(), writes[..k]).transfers|
  {
    WritesKeepMirror(NoEvents(), Empty(), writes[..k]);
  }

  lemma {:induction false} MirroredSaveIsFresh(writes: seq<Action>, k: nat)
    requires k < |writes| && MirrorAt(writes, k) && MirrorAt(writes, k + 1)
    ensures FreshAt(writes, k)
  {
    if writes[k].Save? {
      ReplicaSize(writes, k);
      ReplicaSize(writes, k + 1);
      AfterOneMore(writes, k);
      RowsAdded(TablesAfter(writes, k), writes[k]);
    }
  }

  lemma {:induction false} RowsAdded(t: Tables, a: Action)
    requires a.Save?
    ensures |PgApply(t, a).rows| == |t.rows| + |a.transfers| ==> FreshKeys(t.rows, a.transfers)
  {
    InsertsNewKeys(t.(blocks := t.blocks[a.block.number := a.block]), a.block.number, a.transfers, a.confirmed);
    NewKeysAreNew(Keys(Forget(t.rows)), a.transfers);
  }

  lemma {:induction false} MirrorsEverywhereIffFresh(writes: seq<Action>)
    ensures (forall k :: 0 <= k <= |writes| ==> MirrorAt(writes, k)) <==> (forall k :: 0 <= k < |writes| ==> FreshAt(writes, k))
  {
    if forall k :: 0 <= k <= |writes| ==> MirrorAt(writes, k) {
      forall k | 0 <= k < |writes| ensures FreshAt(writes, k) {
        assert MirrorAt(writes, k) && MirrorAt(writes, k + 1);
        MirroredSaveIsFresh(writes, k);
      }
    }
    if forall k :: 0 <= k < |writes| ==> FreshAt(writes, k) {
      forall k | 0 <= k <= |writes| ensures MirrorAt(writes, k) {
        FreshWritesAgree(writes, k);
        WritesKeepMirror(NoEvents(), Empty(), writes[..k]);
      }
    }
  }

  /** A consumer's transfers are the rows after every write of a run if and only if no save of
      the run meets a conflict. */
  lemma {:induction false} ReplayFollowsTablesIffFresh(cfg: Config, envs: seq<Env>)
    ensures var writes := PgRunActions(cfg, NoRows(), envs);
      && TablesAfter(writes, |writes|) == PgRun(cfg, NoRows(), envs)
      && ((forall k :: 0 <= k <= |writes| ==> MirrorAt(writes, k)) <==> (forall k :: 0 <= k < |writes| ==> FreshAt(writes, k)))
  {
    var writes := PgRunActions(cfg, NoRows(), envs);
    SameWrites(cfg, envs);
    assert writes[..|writes|] == writes;
    MirrorsEverywhereIffFresh(writes);
  }

  /** On the tables too, a Sync publishes at most one reorg event, nothing after it, and it
      names the highest height in the tables and in a replica of all earlier events. */
  lemma {:induction false} TableReorgEventIsLast(cfg: Config, envs: seq<Env>, env: Env, i: nat)
    requires i < |PublishAll(Sync(cfg, PgRun(cfg, NoRows(), envs).blocks, env).actions)|
    requires PublishAll(Sync(cfg, PgRun(cfg, NoRows(), envs).blocks, env).actions)[i].ReorgEvent?
    ensures var t := PgRun(cfg, NoRows(), envs); var actions := Sync(cfg, t.blocks, env).actions;
      var es := PublishAll(actions); var before := PgApplyAll(t, actions[..|actions| - 1]);
      var seen := Replay(NoEvents(), PublishAll(PgRunActions(cfg, NoRows(), envs)) + es[..i]);
      && i == |es| - 1 && actions != []
      && before.blocks != map[] && es[i].fromBlock == MaxKey(before.blocks.Keys)
      && seen.hashes.Keys == before.blocks.Keys
  {
    var t := PgRun(cfg, NoRows(), envs);
    var k := |Sync(cfg, t.blocks, env).actions| - 1;
    ReorgIsLastWrite(cfg, envs, env, i);
    TableRollbackIsMinimalAndFinal(cfg, envs, env, k);
    SeenHeights(cfg, envs, env, k);
  }

  lemma {:induction false} ReorgIsLastWrite(cfg: Config, envs: seq<Env>, env: Env, i: nat)
    requires i < |PublishAll(Sync(cfg, PgRun(cfg, NoRows(), envs).blocks, env).actions)|
    requires PublishAll(Sync(cfg, PgRun(cfg, NoRows(), envs).blocks, env).actions)[i].ReorgEvent?
    ensures var actions := Sync(cfg, PgRun(cfg, NoRows(), envs).blocks, env).actions; var es := PublishAll(actions);
      && i == |es| - 1 && actions != [] && actions[|actions| - 1] == Delete(es[i].fromBlock)
      && es[..i] == PublishAll(actions[..|actions| - 1])
  {
    var s := Run(cfg, Empty(), envs);
    RunDropsRepeats(cfg, envs);
    SyncIsDisciplined(cfg, s, env);
    ReorgComesFromLastWrite(cfg.startBlock, s, Sync(cfg, s.blocks, env).actions, i);
  }

  /** A replica of all events so far holds exactly the heights in the tables. */
  lemma {:induction false} SeenHeights(cfg: Config, envs: seq<Env>, env: Env, k: nat)
    requires k <= |Sync(cfg, PgRun(cfg, NoRows(), envs).blocks, env).actions|
    ensures var t := PgRun(cfg, NoRows(), envs); var writes := Sync(cfg, t.blocks, env).actions[..k];
      Replay(NoEvents(), PublishAll(PgRunActions(cfg, NoRows(), envs)) + PublishAll(writes)).hashes.Keys
      == PgApplyAll(t, writes).blocks.Keys
  {
    SameWrites(cfg, envs);
    var s := InsideNextSync(cfg, envs, env, k);
    ReplayUpTo(cfg, envs, Sync(cfg, PgRun(cfg, NoRows(), envs).blocks, env).actions[..k]);
  }

  // A conflict.

  /** A node with one header at height `n` and answering `logs` for it. */
  function OneBlock(n: nat, logs: seq<Log>): Env {
    var h := Header(n, Plain(seq(32, _ => 0)), 0, []);
    Env(Some(h), (k: nat) => Some(h), (k: nat) => Some(logs), (k: nat) => false, (c: StoreCall) => false)
  }

  lemma {:induction false} OneBlockWrites(cfg: Config, logs: seq<Log>)
    ensures var env := OneBlock(cfg.startBlock, logs); var h := env.head.value;
      Sync(cfg, map[], env).actions
      == [Save(BlockOf(cfg.startBlock, h), DecodeAll(cfg.topicID, logs), 0 >= cfg.confirmations)]
         + Finish(cfg, env, cfg.startBlock).actions
  {
    var env := OneBlock(cfg.startBlock, logs);
    var b := BlockOf(cfg.startBlock, env.head.value);
    var rest := Extend(cfg, map[cfg.startBlock := b], env, cfg.startBlock, cfg.startBlock + 1);
    assert rest == Finish(cfg, env, cfg.startBlock);
  }

  lemma {:induction false} DecodeTwice(topicID: Word, lg: Log)
    requires WellFormed(topicID, lg)
    ensures var x := Decode(topicID, lg).value; DecodeAll(topicID, [lg, lg]) == [x, x]
  {
    var x := Decode(topicID, lg).value;
    assert [lg][..0] == [] && [lg, lg][..1] == [lg];
    assert DecodeAll(topicID, [lg]) == [] + [x] == [x];
    assert [x] + [x] == [x, x];
  }

  /** A save of the same transfer twice, from an empty store, and a promotion perhaps. */
  lemma {:induction false} SavedTwice(b: Block, x: Transfer, c: bool, more: seq<Action>)
    requires more == [] || exists n :: more == [Confirm(n)]
    ensures var s := ApplyAll(Empty(), [Save(b, [x, x], c)] + more);
      |s.transfers| == 2 && s.transfers[0].transfer == s.transfers[1].transfer == x
  {
    var save := Save(b, [x, x], c);
    ApplyConcat(Empty(), [save], more);
    ApplyOne(Empty(), save);
    var s := Apply(Empty(), save);
    assert s.transfers == Tag(b.number, [x, x], c);
    if more != [] {
      var n :| more == [Confirm(n)];
      ApplyOne(s, Confirm(n));
    }
  }

  /** A conflict can happen: when the backend answers a log twice, the tables hold it once and
      a consumer of the events holds it twice. */
  lemma {:induction false} RepeatedLogBreaksReplay(cfg: Config, lg: Log) returns (env: Env)
    requires WellFormed(cfg.topicID, lg)
    ensures var t := PgRun(cfg, NoRows(), [env]);
      var r := Replay(NoEvents(), PublishAll(PgRunActions(cfg, NoRows(), [env])));
      |t.rows| == 1 && |r.transfers| == 2 && !MirrorsTables(r, t)
  {
    env := AnsweredTwice(cfg, lg);
    ReplayRebuildsTables(cfg, [env]);
    OneOfTwo(Run(cfg, Empty(), [env]).transfers);
  }

  lemma {:induction false} AnsweredTwice(cfg: Config, lg: Log) returns (env: Env)
    requires WellFormed(cfg.topicID, lg)
    ensures var ts := Run(cfg, Empty(), [env]).transfers; |ts| == 2 && ts[0].transfer == ts[1].transfer
  {
    env := OneBlock(cfg.startBlock, [lg, lg]);
    var x := Decode(cfg.topicID, lg).value;
    OneBlockWrites(cfg, [lg, lg]);
    DecodeTwice(cfg.topicID, lg);
    SavedTwice(BlockOf(cfg.startBlock, env.head.value), x, 0 >= cfg.confirmations, Finish(cfg, env, cfg.startBlock).actions);
    RunSnoc(cfg, Empty(), [], env);
    assert [] + [env] == [env];
  }

  lemma {:induction false} OneOfTwo(ts: seq<StoredTransfer>)
    requires |ts| == 2 && ts[0].transfer == ts[1].transfer
    ensures |FirstPerKey(ts)| == 1 && !Distinct(ts)
  {
    assert !DifferentKeys(ts, 0, 1);
    FirstIsAllIff(ts);
    FirstKeys(ts);
    assert Key(ts[0].transfer) in Keys(ts);
  }
}
