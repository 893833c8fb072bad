/** The two stores agree on every run that Sync can produce. */
module Refinement {
  import opened Chain
  import opened Erc20
  import opened StoreModel
  import opened SyncSpec
  import opened ChainInvariant
  import opened OnView
  import opened IndexSpec
  import opened Postgres
  import opened Stores
  import opened Inserts

  /** The tables hold the same blocks, and the same transfers with the same flags. */
  ghost predicate Refines(s: State, t: Tables) {
    s.blocks == t.blocks && s.transfers == Forget(t.rows)
  }

  /** No transfer of `xs` has the key of a row or of another transfer of `xs`. */
  ghost predicate FreshKeys(rows: seq<Row>, xs: seq<Transfer>) {
    AllNew(Keys(Forget(rows)), xs)
  }

  /** That is, each of them meets no row and no earlier one with both its transaction hash and
      its log index. */
  lemma {:induction false} FreshIffUnmet(rows: seq<Row>, xs: seq<Transfer>)
    ensures FreshKeys(rows, xs) <==> forall i :: 0 <= i < |xs| ==> Unmet(rows, xs, i)
  {
    forall i | 0 <= i < |xs| ensures Unmet(rows, xs, i) <==> Key(xs[i]) !in Keys(Forget(rows)) && Key(xs[i]) !in KeysIn(xs[..i]) {
      UnmetIff(rows, xs, i);
      HasKeyIff(rows, Key(xs[i]));
    }
    forall i | 0 <= i < |xs| ensures Key(xs[i]) !in KeysIn(xs[..i]) <==> forall j :: 0 <= j < i ==> Key(xs[j]) != Key(xs[i]) {
      assert forall j :: 0 <= j < i ==> xs[..i][j] == xs[j];
      if j :| 0 <= j < i && Key(xs[j]) == Key(xs[i]) {
        assert Key(xs[..i][j]) in KeysIn(xs[..i]);
      }
    }
  }

  /** From agreeing stores, saving a block keeps them in agreement if and only if no conflict
      clause fires. */
  lemma {:induction false} SaveAgreesIffFresh(s: State, t: Tables, b: Block, xs: seq<Transfer>, c: bool)
    requires Refines(s, t)
    ensures Refines(Apply(s, Save(b, xs, c)), PgApply(t, Save(b, xs, c))) <==> FreshKeys(t.rows, xs)
  {
    InsertsNewKeys(t.(blocks := t.blocks[b.number := b]), b.number, xs, c);
    NewKeysAreNew(Keys(Forget(t.rows)), xs);
  }

  lemma {:induction false} CascadeIsBelow(blocks: map<nat, Block>, rows: seq<Row>, n: nat)
    requires forall i :: 0 <= i < |rows| ==> rows[i].block in blocks
    ensures Forget(Cascade(blocks, rows, n)) == Below(Forget(rows), n)
  {
    if rows != [] {
      CascadeIsBelow(blocks, rows[..|rows| - 1], n);
      assert Forget(rows)[..|rows| - 1] == Forget(rows[..|rows| - 1]);
    }
  }

  lemma {:induction false} DeleteAgrees(s: State, t: Tables, n: nat)
    requires Refines(s, t) && Legal(t)
    ensures Refines(Apply(s, Delete(n)), PgApply(t, Delete(n)))
  {
    CascadeIsBelow(t.blocks, t.rows, n);
  }

  lemma {:induction false} ConfirmAgrees(s: State, t: Tables, n: nat)
    requires Refines(s, t)
    ensures Refines(Apply(s, Confirm(n)), PgApply(t, Confirm(n)))
  {
  }

  ghost function PgStep(cfg: Config, t: Tables, env: Env): Tables {
    PgApplyAll(t, Sync(cfg, t.blocks, env).actions)
  }

  /** Syncs on the Postgres store: decisions are made from its own blocks. */
  ghost function PgRun(cfg: Config, t: Tables, envs: seq<Env>): Tables {
    if envs == [] then t
    else PgStep(cfg, PgRun(cfg, t, envs[..|envs| - 1]), envs[|envs| - 1])
  }

  /** All writes of a run on the tables, in order. */
  ghost function PgRunActions(cfg: Config, t: Tables, envs: seq<Env>): seq<Action> {
    if envs == [] then []
    else
      var front := envs[..|envs| - 1];
      PgRunActions(cfg, t, front) + Sync(cfg, PgRun(cfg, t, front).blocks, envs[|envs| - 1]).actions
  }

  /** What either store holds after one Sync per element of `envs`, and the writes made. */
  ghost function RunOf(cfg: Config, c: Contents, envs: seq<Env>): Contents {
    match c
    case InMemory(s) => InMemory(Run(cfg, s, envs))
    case InPostgres(t) => InPostgres(PgRun(cfg, t, envs))
  }

  ghost function WritesOf(cfg: Config, c: Contents, envs: seq<Env>): seq<Action> {
    match c
    case InMemory(s) => RunActions(cfg, s, envs)
    case InPostgres(t) => PgRunActions(cfg, t, envs)
  }

  lemma {:induction false} SyncIsStep(cfg: Config, c: Contents, envs: seq<Env>, env: Env)
    ensures var d := RunOf(cfg, c, envs); WriteAll(d, Sync(cfg, d.Blocks(), env).actions) == RunOf(cfg, c, envs + [env])
    ensures WritesOf(cfg, c, envs + [env]) == WritesOf(cfg, c, envs) + Sync(cfg, RunOf(cfg, c, envs).Blocks(), env).actions
  {
    assert (envs + [env])[..|envs|] == envs;
    match c
    case InMemory(s) =>
      WriteAllInMemory(Run(cfg, s, envs), Sync(cfg, Run(cfg, s, envs).blocks, env).actions);
    case InPostgres(t) =>
      WriteAllInPostgres(PgRun(cfg, t, envs), Sync(cfg, PgRun(cfg, t, envs).blocks, env).actions);
  }

  lemma {:induction false} WriteAllKeepsSame(c: Contents, d: Contents, actions: seq<Action>)
    requires Same(c, d)
    ensures Same(WriteAll(c, actions), WriteAll(d, actions))
  {
    if actions != [] {
      WriteAllKeepsSame(c, d, actions[..|actions| - 1]);
      WriteKeepsSame(WriteAll(c, actions[..|actions| - 1]), WriteAll(d, actions[..|actions| - 1]), actions[|actions| - 1]);
    }
  }

  /** A Sync on contents that a run has up to ids takes them to what the longer run has. */
  lemma {:induction false} OneMoreSync(cfg: Config, first: Contents, envs: seq<Env>, env: Env, now: Contents, after: Contents)
    requires Same(now, RunOf(cfg, first, envs))
    requires Same(after, WriteAll(now, Sync(cfg, now.Blocks(), env).actions))
    ensures Same(after, RunOf(cfg, first, envs + [env]))
    ensures WritesOf(cfg, first, envs + [env]) == WritesOf(cfg, first, envs) + Sync(cfg, now.Blocks(), env).actions
  {
    WriteAllKeepsSame(now, RunOf(cfg, first, envs), Sync(cfg, now.Blocks(), env).actions);
    SyncIsStep(cfg, first, envs, env);
  }

  /** Within the indexed part of a chain no two transfers share a transaction hash and log
      index. */
  ghost predicate DistinctKeys(cfg: Config, v: View, txsOf: Hash -> seq<Transfer>) {
    Distinct(Collect(txsOf, Canon(v, cfg.startBlock), cfg.startBlock, |v|))
  }

  /** On a faithful store that follows `v`, the next block of `v` brings only fresh keys. */
  lemma {:induction false} NextBlockIsFresh(cfg: Config, txsOf: Hash -> seq<Transfer>, s: State, t: Tables, v: View, n: nat)
    requires Faithful(cfg, txsOf, s) && Refines(s, t) && At(cfg, s, v, n) && n < |v|
    requires DistinctKeys(cfg, v, txsOf)
    ensures FreshKeys(t.rows, txsOf(HashOf(v[n])))
  {
    var below := CollectedBelow(cfg, txsOf, s, v, n);
    DistinctGivesFresh(s.transfers, below, n, txsOf(HashOf(v[n])), Collect(txsOf, Canon(v, cfg.startBlock), cfg.startBlock, |v|));
  }

  lemma {:induction false} CollectedBelow(cfg: Config, txsOf: Hash -> seq<Transfer>, s: State, v: View, n: nat) returns (below: seq<StoredTransfer>)
    requires Faithful(cfg, txsOf, s) && At(cfg, s, v, n) && n < |v|
    ensures Strip(s.transfers) == below
    ensures below + Tag(n, txsOf(HashOf(v[n])), false) <= Collect(txsOf, Canon(v, cfg.startBlock), cfg.startBlock, |v|)
  {
    below := Collect(txsOf, Canon(v, cfg.startBlock), cfg.startBlock, n);
    CollectSame(txsOf, s.blocks, Canon(v, cfg.startBlock), cfg.startBlock, n);
    CanonCollect(txsOf, v, cfg.startBlock, n);
  }

  lemma {:induction false} CanonCollect(txsOf: Hash -> seq<Transfer>, v: View, start: nat, n: nat)
    requires start <= n < |v|
    ensures Collect(txsOf, Canon(v, start), start, n) + Tag(n, txsOf(HashOf(v[n])), false) <= Collect(txsOf, Canon(v, start), start, |v|)
  {
    CollectPrefix(txsOf, Canon(v, start), start, n + 1, |v|);
  }

  lemma {:induction false} DistinctGivesFresh(stored: seq<StoredTransfer>, below: seq<StoredTransfer>, n: nat, xs: seq<Transfer>, all: seq<StoredTransfer>)
    requires Strip(stored) == below && below + Tag(n, xs, false) <= all && Distinct(all)
    ensures AllNew(Keys(stored), xs)
  {
    var k := |stored|;
    forall i | 0 <= i < k ensures stored[i].transfer == all[i].transfer {
      assert Strip(stored)[i] == (below + Tag(n, xs, false))[i];
    }
    forall i | 0 <= i < |xs| ensures xs[i] == all[k + i].transfer {
      assert Tag(n, xs, false)[i] == (below + Tag(n, xs, false))[k + i];
    }
    forall i, j | 0 <= i < |xs| && 0 <= j < k ensures Key(stored[j].transfer) != Key(xs[i]) {
      assert DifferentKeys(all, j, k + i);
    }
    forall i, j | 0 <= i < j < |xs| ensures Key(xs[i]) != Key(xs[j]) {
      assert DifferentKeys(all, k + i, k + j);
    }
  }

  lemma {:induction false} SaveAgrees(cfg: Config, txsOf: Hash -> seq<Transfer>, s: State, t: Tables, v: View, n: nat)
    requires Faithful(cfg, txsOf, s) && Refines(s, t) && Legal(t) && At(cfg, s, v, n) && n < |v|
    requires DistinctKeys(cfg, v, txsOf)
    ensures var save := SaveOf(cfg, v, TxsAt(v, txsOf), n);
      Refines(Apply(s, save), PgApply(t, save)) && Legal(PgApply(t, save))
  {
    var save := SaveOf(cfg, v, TxsAt(v, txsOf), n);
    NextBlockIsFresh(cfg, txsOf, s, t, v, n);
    SaveAgreesIffFresh(s, t, save.block, save.transfers, save.confirmed);
    StatementsKeepLegal(t, save);
  }

  ghost predicate Agree(s: State, t: Tables) {
    Refines(s, t) && Legal(t)
  }

  lemma {:induction false} SavesAgree(cfg: Config, txsOf: Hash -> seq<Transfer>, s: State, t: Tables, v: View, n: nat, m: nat, head: nat)
    requires Faithful(cfg, txsOf, s) && Agree(s, t) && Linked(v) && At(cfg, s, v, n) && n <= m <= Target(v, n)
    requires DistinctKeys(cfg, v, txsOf) && ConfirmedUpTo(cfg, s, head) && |v| - 1 <= head
    ensures var saves := Saves(cfg, v, TxsAt(v, txsOf), n, m); Agree(ApplyAll(s, saves), PgApplyAll(t, saves))
    decreases m - n
  {
    if n < m {
      var txs := TxsAt(v, txsOf);
      var save := SaveOf(cfg, v, txs, n);
      SaveAgrees(cfg, txsOf, s, t, v, n);
      SaveKeepsFaithful(cfg, txsOf, s, v, n, head);
      SaveMovesOn(cfg, s, v, txs, n);
      SavesAgree(cfg, txsOf, Apply(s, save), PgApply(t, save), v, n + 1, m, head);
      SavesFront(cfg, v, txs, n, m);
      ApplyCons(s, save, Saves(cfg, v, txs, n + 1, m));
      PgApplyCons(t, save, Saves(cfg, v, txs, n + 1, m));
    }
  }

  lemma {:induction false} PromotionAgrees(cfg: Config, s: State, t: Tables, v: View)
    requires Agree(s, t) && |v| > 0
    ensures Agree(ApplyAll(s, Promotion(cfg, v)), PgApplyAll(t, Promotion(cfg, v)))
  {
    PromotionKeepsBlocks(cfg, s, v);
    if Promotion(cfg, v) != [] {
      var a := Confirm(|v| - 1 - cfg.confirmations);
      PgApplyOne(t, a);
      ConfirmAgrees(s, t, a.through);
      StatementsKeepLegal(t, a);
    }
  }

  lemma {:induction false} SyncAgrees(cfg: Config, txsOf: Hash -> seq<Transfer>, s: State, t: Tables, v: View, head: nat, trace: Trace, m: nat)
    requires Faithful(cfg, txsOf, s) && Agree(s, t) && Linked(v) && DistinctKeys(cfg, v, txsOf)
    requires ConfirmedUpTo(cfg, s, head) && |v| - 1 <= head
    requires SyncedTo(cfg, s, v, TxsAt(v, txsOf), trace, m)
    ensures Agree(ApplyAll(s, trace.actions), PgApplyAll(t, trace.actions))
  {
    var n := Next(cfg.startBlock, s.blocks);
    if trace.actions == [] {
    } else if TipDiverges(s.blocks, v) && trace == Trace([Delete(n - 1)], RolledBack) {
      ApplyOne(s, Delete(n - 1));
      PgApplyOne(t, Delete(n - 1));
      DeleteAgrees(s, t, n - 1);
      StatementsKeepLegal(t, Delete(n - 1));
    } else {
      AdvanceReaches(cfg, s, v, TxsAt(v, txsOf), trace, m);
      var saves := Saves(cfg, v, TxsAt(v, txsOf), n, m);
      SavesAgree(cfg, txsOf, s, t, v, n, m, head);
      PgApplyConcat(t, saves, Promotion(cfg, v));
      PromotionAgrees(cfg, ApplyAll(s, saves), PgApplyAll(t, saves), v);
    }
  }

  lemma {:induction false} StoresAgreeUpTo(cfg: Config, envs: seq<Env>, vs: seq<View>, txsOf: Hash -> seq<Transfer>, head: nat)
    requires AllSee(cfg, envs, vs, txsOf)
    requires forall i :: 0 <= i < |vs| ==> DistinctKeys(cfg, vs[i], txsOf) && |vs[i]| - 1 <= head
    ensures Agree(Run(cfg, Empty(), envs), PgRun(cfg, NoRows(), envs))
    decreases |envs|
  {
    if envs != [] {
      var k := |envs| - 1;
      StoresAgreeUpTo(cfg, envs[..k], vs[..k], txsOf, head);
      RunIsFaithful(cfg, envs[..k], vs[..k], txsOf, head);
      var s := Run(cfg, Empty(), envs[..k]);
      var t := PgRun(cfg, NoRows(), envs[..k]);
      var m := SyncOnView(cfg, s, envs[k], vs[k], TxsAt(vs[k], txsOf));
      SyncAgrees(cfg, txsOf, s, t, vs[k], head, Sync(cfg, s.blocks, envs[k]), m);
    }
  }

  ghost function MaxLen(vs: seq<View>): (m: nat)
    ensures forall i :: 0 <= i < |vs| ==> |vs[i]| <= m
  {
    if vs == [] then 0
    else
      var m := MaxLen(vs[..|vs| - 1]);
      if m < |vs[|vs| - 1]| then |vs[|vs| - 1]| else m
  }

  /** On every run in which each Sync sees one chain with distinct transfer keys, the Postgres
      tables satisfy their constraints and hold exactly what the in-memory store holds. */
  lemma {:induction false} StoresAgree(cfg: Config, envs: seq<Env>, vs: seq<View>, txsOf: Hash -> seq<Transfer>)
    requires AllSee(cfg, envs, vs, txsOf)
    requires forall i :: 0 <= i < |vs| ==> DistinctKeys(cfg, vs[i], txsOf)
    ensures Refines(Run(cfg, Empty(), envs), PgRun(cfg, NoRows(), envs))
    ensures Legal(PgRun(cfg, NoRows(), envs))
  {
    StoresAgreeUpTo(cfg, envs, vs, txsOf, MaxLen(vs));
  }
}
