/** Runs on the Postgres store with arbitrary answers: it is the in-memory store without the
    transfers whose key occurred before, so it keeps the same chain invariant. */
module TableRuns {
  import opened Chain
  import opened StoreModel
  import opened SyncSpec
  import opened ChainInvariant
  import opened Postgres
  import opened Inserts
  import opened Refinement

  /** The tables hold the blocks of `s`, and of its transfers the first with each key. */
  ghost predicate DropsRepeats(s: State, t: Tables) {
    Legal(t) && t.blocks == s.blocks && Forget(t.rows) == FirstPerKey(s.transfers)
  }

  /** On sorted transfers, leaving out repeats and cutting off a height commute. */
  lemma {:induction false} FirstOfBelow(ts: seq<StoredTransfer>, n: nat)
    requires Sorted(ts)
    ensures FirstPerKey(Below(ts, n)) == Below(FirstPerKey(ts), n)
  {
    if ts != [] {
      var front, x := ts[..|ts| - 1], ts[|ts| - 1];
      if x.block < n {
        AllBelow(ts, n);
        FirstAreMembers(ts);
        forall i | 0 <= i < |FirstPerKey(ts)| ensures FirstPerKey(ts)[i].block < n {
          assert FirstPerKey(ts)[i] in ts;
        }
        AllBelow(FirstPerKey(ts), n);
      } else {
        FirstOfBelow(front, n);
        assert (FirstPerKey(front) + [x])[..|FirstPerKey(front)|] == FirstPerKey(front);
        assert FirstPerKey(front) + [] == FirstPerKey(front);
      }
    }
  }

  lemma {:induction false} SaveDropsRepeats(s: State, t: Tables, a: Action)
    requires DropsRepeats(s, t) && a.Save?
    ensures DropsRepeats(Apply(s, a), PgApply(t, a))
  {
    StatementsKeepLegal(t, a);
    var b := a.block;
    InsertsNewKeys(t.(blocks := t.blocks[b.number := b]), b.number, a.transfers, a.confirmed);
    FirstKeys(s.transfers);
    FirstOfAppended(s.transfers, b.number, a.transfers, a.confirmed);
  }

  lemma {:induction false} DeleteDropsRepeats(s: State, t: Tables, n: nat)
    requires DropsRepeats(s, t) && Sorted(s.transfers)
    ensures DropsRepeats(Apply(s, Delete(n)), PgApply(t, Delete(n)))
  {
    StatementsKeepLegal(t, Delete(n));
    CascadeIsBelow(t.blocks, t.rows, n);
    FirstOfBelow(s.transfers, n);
  }

  lemma {:induction false} ConfirmDropsRepeats(s: State, t: Tables, n: nat)
    requires DropsRepeats(s, t)
    ensures DropsRepeats(Apply(s, Confirm(n)), PgApply(t, Confirm(n)))
  {
    StatementsKeepLegal(t, Confirm(n));
    FirstOfPromoted(s.transfers, n);
    ConfirmAgrees(State(t.blocks, Forget(t.rows)), t, n);
  }

  lemma {:induction false} WriteDropsRepeats(s: State, t: Tables, a: Action)
    requires DropsRepeats(s, t) && Sorted(s.transfers)
    ensures DropsRepeats(Apply(s, a), PgApply(t, a))
  {
    match a
    case Save(_, _, _) => SaveDropsRepeats(s, t, a);
    case Delete(n) => DeleteDropsRepeats(s, t, n);
    case Confirm(n) => ConfirmDropsRepeats(s, t, n);
  }

  lemma {:induction false} OneMoreDropsRepeats(s: State, t: Tables, done: seq<Action>, a: Action)
    requires DropsRepeats(ApplyAll(s, done), PgApplyAll(t, done)) && Sorted(ApplyAll(s, done).transfers)
    ensures DropsRepeats(ApplyAll(s, done + [a]), PgApplyAll(t, done + [a]))
  {
    WriteDropsRepeats(ApplyAll(s, done), PgApplyAll(t, done), a);
    ApplySnoc(s, done, a);
    PgApplyConcat(t, done, [a]);
    PgApplyOne(PgApplyAll(t, done), a);
  }

  ghost predicate SortedAfter(s: State, actions: seq<Action>, k: nat)
    requires k <= |actions|
  {
    Sorted(ApplyAll(s, actions[..k]).transfers)
  }

  lemma {:induction false} WritesDropRepeats(s: State, t: Tables, actions: seq<Action>, k: nat)
    requires DropsRepeats(s, t) && k <= |actions| && forall j :: 0 <= j < k ==> SortedAfter(s, actions, j)
    ensures DropsRepeats(ApplyAll(s, actions[..k]), PgApplyAll(t, actions[..k]))
  {
    if k == 0 {
      assert actions[..k] == [];
    } else {
      WritesDropRepeats(s, t, actions, k - 1);
      assert SortedAfter(s, actions, k - 1);
      OneMoreDropsRepeats(s, t, actions[..k - 1], actions[k - 1]);
      assert actions[..k] == actions[..k - 1] + [actions[k - 1]];
    }
  }

  lemma {:induction false} PrefixDropsRepeats(start: nat, s: State, t: Tables, actions: seq<Action>, k: nat)
    requires Indexed(start, s) && Disciplined(start, s, actions) && DropsRepeats(s, t) && k <= |actions|
    ensures DropsRepeats(ApplyAll(s, actions[..k]), PgApplyAll(t, actions[..k]))
  {
    forall j | 0 <= j < k ensures SortedAfter(s, actions, j) {
      PrefixKeepsIndexed(start, s, actions, j);
    }
    WritesDropRepeats(s, t, actions, k);
  }

  /** With any answers at all, after any number of Syncs the tables hold the blocks that the
      in-memory store would hold, and its transfers but for those whose transaction hash and
      log index occurred before. */
  lemma {:induction false} RunDropsRepeats(cfg: Config, envs: seq<Env>)
    ensures Indexed(cfg.startBlock, Run(cfg, Empty(), envs))
    ensures DropsRepeats(Run(cfg, Empty(), envs), PgRun(cfg, NoRows(), envs))
  {
    RunFromDropsRepeats(cfg, Empty(), NoRows(), envs);
  }

  lemma {:induction false} RunFromDropsRepeats(cfg: Config, s: State, t: Tables, envs: seq<Env>)
    requires Indexed(cfg.startBlock, s) && DropsRepeats(s, t)
    ensures Indexed(cfg.startBlock, Run(cfg, s, envs))
    ensures DropsRepeats(Run(cfg, s, envs), PgRun(cfg, t, envs))
    ensures PgRunActions(cfg, t, envs) == RunActions(cfg, s, envs)
  {
    RunKeepsIndexed(cfg, s, envs);
    if envs != [] {
      var front, env := envs[..|envs| - 1], envs[|envs| - 1];
      RunFromDropsRepeats(cfg, s, t, front);
      StepDropsRepeats(cfg, Run(cfg, s, front), PgRun(cfg, t, front), env);
    }
  }

  lemma {:induction false} StepDropsRepeats(cfg: Config, s: State, t: Tables, env: Env)
    requires Indexed(cfg.startBlock, s) && DropsRepeats(s, t)
    ensures DropsRepeats(SyncStep(cfg, s, env), PgStep(cfg, t, env))
  {
    var actions := Sync(cfg, s.blocks, env).actions;
    SyncIsDisciplined(cfg, s, env);
    PrefixDropsRepeats(cfg.startBlock, s, t, actions, |actions|);
    assert actions[..|actions|] == actions;
  }

  /** So the two stores agree after a run if and only if no transfer the in-memory store holds
      repeats the transaction hash and log index of another. */
  lemma {:induction false} StoresAgreeIffDistinct(cfg: Config, envs: seq<Env>)
    ensures Refines(Run(cfg, Empty(), envs), PgRun(cfg, NoRows(), envs)) <==> Distinct(Run(cfg, Empty(), envs).transfers)
  {
    RunDropsRepeats(cfg, envs);
    FirstIsAllIff(Run(cfg, Empty(), envs).transfers);
  }

  // The chain invariant, on the tables.

  /** The blocks are one linked chain from the start block, the schema is satisfied, and rows
      in the order of their ids are in the order of their heights. */
  ghost predicate TablesIndexed(start: nat, t: Tables) {
    Chained(start, t.blocks) && Legal(t) && Sorted(Forget(t.rows))
  }

  lemma {:induction false} FirstIsSorted(ts: seq<StoredTransfer>)
    requires Sorted(ts)
    ensures Sorted(FirstPerKey(ts))
  {
    if ts != [] {
      var front := FirstPerKey(ts[..|ts| - 1]);
      FirstIsSorted(ts[..|ts| - 1]);
      FirstAreMembers(ts[..|ts| - 1]);
      forall i, j | 0 <= i < j < |FirstPerKey(ts)| ensures FirstPerKey(ts)[i].block <= FirstPerKey(ts)[j].block {
        assert front[i] in ts[..|ts| - 1];
      }
    }
  }

  lemma {:induction false} IndexedTables(start: nat, s: State, t: Tables)
    requires Indexed(start, s) && DropsRepeats(s, t)
    ensures TablesIndexed(start, t)
  {
    FirstIsSorted(s.transfers);
  }

  /** What holds between the two stores, and of each, after `k` writes of one more Sync. */
  lemma {:induction false} InsideNextSync(cfg: Config, envs: seq<Env>, env: Env, k: nat) returns (s: State)
    requires k <= |Sync(cfg, PgRun(cfg, NoRows(), envs).blocks, env).actions|
    ensures var t := PgRun(cfg, NoRows(), envs); var actions := Sync(cfg, t.blocks, env).actions;
      && s == ApplyAll(Run(cfg, Empty(), envs), actions[..k])
      && Indexed(cfg.startBlock, s) && Disciplined(cfg.startBlock, s, actions[k..])
      && DropsRepeats(s, PgApplyAll(t, actions[..k]))
  {
    RunDropsRepeats(cfg, envs);
    var before, t := Run(cfg, Empty(), envs), PgRun(cfg, NoRows(), envs);
    var actions := Sync(cfg, t.blocks, env).actions;
    s := ApplyAll(before, actions[..k]);
    SyncIsDisciplined(cfg, before, env);
    PrefixKeepsIndexed(cfg.startBlock, before, actions, k);
    PrefixDropsRepeats(cfg.startBlock, before, t, actions, k);
  }

  /** From empty tables, with any answers at all, the tables are so after any number of Syncs
      and after every write inside the next one. */
  lemma {:induction false} TablesIndexedAtEveryWrite(cfg: Config, envs: seq<Env>, env: Env, k: nat)
    requires k <= |Sync(cfg, PgRun(cfg, NoRows(), envs).blocks, env).actions|
    ensures var t := PgRun(cfg, NoRows(), envs);
      TablesIndexed(cfg.startBlock, PgApplyAll(t, Sync(cfg, t.blocks, env).actions[..k]))
  {
    var s := InsideNextSync(cfg, envs, env, k);
    IndexedTables(cfg.startBlock, s, PgApplyAll(PgRun(cfg, NoRows(), envs), Sync(cfg, PgRun(cfg, NoRows(), envs).blocks, env).actions[..k]));
  }

  ghost predicate RowsSorted(rows: seq<Row>) {
    forall i, j :: 0 <= i < j < |rows| ==> rows[i].block <= rows[j].block
  }

  lemma {:induction false} CascadeOfBelow(blocks: map<nat, Block>, rows: seq<Row>, n: nat)
    requires forall i :: 0 <= i < |rows| ==> rows[i].block < n
    ensures Cascade(blocks, rows, n) == rows
  {
    if rows != [] {
      CascadeOfBelow(blocks, rows[..|rows| - 1], n);
    }
  }

  /** On rows sorted by height the cascade is a prefix truncation, ids included. */
  lemma {:induction false} CascadeTruncates(blocks: map<nat, Block>, rows: seq<Row>, n: nat)
    requires ForeignKey(blocks, rows) && RowsSorted(rows)
    ensures |Cascade(blocks, rows, n)| <= |rows| && Cascade(blocks, rows, n) == rows[..|Cascade(blocks, rows, n)|]
    ensures forall i :: |Cascade(blocks, rows, n)| <= i < |rows| ==> rows[i].block >= n
  {
    if rows != [] {
      if rows[|rows| - 1].block < n {
        CascadeOfBelow(blocks, rows, n);
      } else {
        var front := rows[..|rows| - 1];
        CascadeTruncates(blocks, front, n);
        assert forall i :: 0 <= i < |front| ==> front[i] == rows[i];
      }
    }
  }

  /** `after` is `before` without block `tip`, the highest, and the rows that refer to it. */
  ghost predicate TipRemoved(before: Tables, after: Tables, tip: nat) {
    && before.blocks != map[] && tip == MaxKey(before.blocks.Keys)
    && after.blocks == before.blocks - {tip} && after.nextId == before.nextId
    && |after.rows| <= |before.rows| && after.rows == before.rows[..|after.rows|]
    && (forall i :: 0 <= i < |after.rows| ==> before.rows[i].block < tip)
    && (forall i :: |after.rows| <= i < |before.rows| ==> before.rows[i].block == tip)
  }

  lemma {:induction false} DeleteTipOfTables(start: nat, t: Tables)
    requires TablesIndexed(start, t) && t.blocks != map[]
    ensures TipRemoved(t, PgApply(t, Delete(MaxKey(t.blocks.Keys))), MaxKey(t.blocks.Keys))
  {
    var tip := MaxKey(t.blocks.Keys);
    TruncateBlocks(start, t.blocks);
    forall i, j | 0 <= i < j < |t.rows| ensures t.rows[i].block <= t.rows[j].block {
      assert Forget(t.rows)[i].block <= Forget(t.rows)[j].block;
    }
    CascadeTruncates(t.blocks, t.rows, tip);
    CascadeKeeps(t.blocks, t.rows, tip);
    TipRows(t, Cascade(t.blocks, t.rows, tip), tip);
  }

  lemma {:induction false} TipRows(t: Tables, kept: seq<Row>, tip: nat)
    requires ForeignKey(t.blocks, t.rows) && forall n :: n in t.blocks ==> n <= tip
    requires |kept| <= |t.rows| && kept == t.rows[..|kept|] && forall row :: row in kept ==> row.block < tip
    requires forall i :: |kept| <= i < |t.rows| ==> t.rows[i].block >= tip
    ensures forall i :: 0 <= i < |kept| ==> t.rows[i].block < tip
    ensures forall i :: |kept| <= i < |t.rows| ==> t.rows[i].block == tip
  {
    forall i | 0 <= i < |kept| ensures t.rows[i].block < tip {
      assert kept[i] in kept;
    }
  }

  lemma {:induction false} LastWrite(t: Tables, actions: seq<Action>, k: nat)
    requires |actions| == k + 1
    ensures PgApplyAll(t, actions) == PgApply(PgApplyAll(t, actions[..k]), actions[k])
  {
    assert actions == actions[..k] + [actions[k]];
    PgApplyConcat(t, actions[..k], [actions[k]]);
    PgApplyOne(PgApplyAll(t, actions[..k]), actions[k]);
  }

  lemma {:induction false} RollbackOfDisciplined(start: nat, s: State, before: Tables, rest: seq<Action>)
    requires Indexed(start, s) && Disciplined(start, s, rest) && DropsRepeats(s, before)
    requires rest != [] && rest[0].Delete?
    ensures |rest| == 1 && TipRemoved(before, PgApply(before, rest[0]), rest[0].from)
  {
    IndexedTables(start, s, before);
    DeleteTipOfTables(start, before);
  }

  /** On every run on the tables, a rollback is the last write of its Sync and removes exactly
      the highest stored block and its rows. */
  lemma {:induction false} TableRollbackIsMinimalAndFinal(cfg: Config, envs: seq<Env>, env: Env, k: nat)
    requires k < |Sync(cfg, PgRun(cfg, NoRows(), envs).blocks, env).actions|
    requires Sync(cfg, PgRun(cfg, NoRows(), envs).blocks, env).actions[k].Delete?
    ensures var t := PgRun(cfg, NoRows(), envs); var trace := Sync(cfg, t.blocks, env);
      && k == |trace.actions| - 1 && trace.outcome == RolledBack
      && TipRemoved(PgApplyAll(t, trace.actions[..k]), PgStep(cfg, t, env), trace.actions[k].from)
  {
    var t := PgRun(cfg, NoRows(), envs);
    var actions := Sync(cfg, t.blocks, env).actions;
    var s := InsideNextSync(cfg, envs, env, k);
    RollbackOfDisciplined(cfg.startBlock, s, PgApplyAll(t, actions[..k]), actions[k..]);
    LastWrite(t, actions, k);
    OutcomeOfSync(cfg, t.blocks, env, k);
  }
}
