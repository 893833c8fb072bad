/** Finality and recovery as the Postgres tables show them. */
module TableFinality {
  import opened Chain
  import opened Erc20
  import opened StoreModel
  import opened SyncSpec
  import opened ChainInvariant
  import opened OnView
  import opened Convergence
  import opened Finality
  import opened DeepReorgs
  import opened Postgres
  import opened Inserts
  import opened Refinement
  import opened TableRuns

  /** Every confirmed row of `t` is still in `u`, with its id, its contents and its flag. */
  ghost predicate KeepsConfirmedRows(t: Tables, u: Tables) {
    forall row :: row in t.rows && row.confirmed ==> row in u.rows
  }

  lemma {:induction false} InsertAllExtends(t: Tables, n: nat, xs: seq<Transfer>, c: bool)
    ensures t.rows <= InsertAll(t, n, xs, c).rows
  {
    if xs != [] {
      InsertAllExtends(t, n, xs[..|xs| - 1], c);
    }
  }

  lemma {:induction false} WriteKeepsConfirmedRows(t: Tables, a: Action)
    requires !a.Delete?
    ensures KeepsConfirmedRows(t, PgApply(t, a))
  {
    match a
    case Save(b, xs, c) => InsertAllExtends(t.(blocks := t.blocks[b.number := b]), b.number, xs, c);
    case Confirm(n) =>
      forall row | row in t.rows && row.confirmed ensures row in UpdateConfirmed(t.rows, n) {
        var i :| 0 <= i < |t.rows| && t.rows[i] == row;
        assert UpdateConfirmed(t.rows, n)[i] == row;
      }
  }

  lemma {:induction false} WritesKeepConfirmedRows(t: Tables, actions: seq<Action>)
    requires forall i :: 0 <= i < |actions| ==> !actions[i].Delete?
    ensures KeepsConfirmedRows(t, PgApplyAll(t, actions))
    decreases |actions|
  {
    if actions != [] {
      WriteKeepsConfirmedRows(t, actions[0]);
      WritesKeepConfirmedRows(PgApply(t, actions[0]), actions[1..]);
    }
  }

  lemma {:induction false} SavesDeleteNothing(cfg: Config, v: View, txs: nat -> seq<Transfer>, n: nat, m: nat)
    requires m <= n || m <= |v|
    ensures forall i :: 0 <= i < |Saves(cfg, v, txs, n, m)| ==> Saves(cfg, v, txs, n, m)[i].Save?
  {
    if n < m {
      SavesDeleteNothing(cfg, v, txs, n, m - 1);
    }
  }

  lemma {:induction false} RollbackKeepsConfirmedRows(s: State, t: Tables, tip: nat)
    requires DropsRepeats(s, t)
    requires forall i :: 0 <= i < |s.transfers| && s.transfers[i].confirmed ==> s.transfers[i].block < tip
    ensures KeepsConfirmedRows(t, PgApply(t, Delete(tip)))
  {
    CascadeKeeps(t.blocks, t.rows, tip);
    FirstAreMembers(s.transfers);
    forall row | row in t.rows && row.confirmed ensures row.block < tip {
      var i :| 0 <= i < |t.rows| && t.rows[i] == row;
      assert Forget(t.rows)[i] in s.transfers;
    }
  }

  lemma {:induction false} SyncKeepsConfirmedRows(cfg: Config, s: State, t: Tables, v: View, txs: nat -> seq<Transfer>, trace: Trace, m: nat, vs: seq<View>)
    requires Indexed(cfg.startBlock, s) && DropsRepeats(s, t) && Final(cfg, s, vs)
    requires forall j :: 0 <= j < |vs| ==> RespectsFinality(cfg, vs[j], v)
    requires SyncedTo(cfg, s, v, txs, trace, m)
    ensures KeepsConfirmedRows(t, PgApplyAll(t, trace.actions))
  {
    var n := Next(cfg.startBlock, s.blocks);
    if TipDiverges(s.blocks, v) && trace == Trace([Delete(n - 1)], RolledBack) {
      ConfirmedBelowTip(cfg, s, v, vs);
      RollbackKeepsConfirmedRows(s, t, n - 1);
      PgApplyOne(t, Delete(n - 1));
    } else {
      if trace.actions != [] {
        SavesDeleteNothing(cfg, v, txs, n, m);
      }
      WritesKeepConfirmedRows(t, trace.actions);
    }
  }

  lemma {:induction false} LastStepKeepsConfirmedRows(cfg: Config, envs: seq<Env>, vs: seq<View>)
    requires envs != [] && RunSees(envs, vs) && BoundedReorgs(cfg, vs)
    ensures KeepsConfirmedRows(PgRun(cfg, NoRows(), envs[..|envs| - 1]), PgRun(cfg, NoRows(), envs))
  {
    var k := |envs| - 1;
    BoundedPrefix(cfg, envs, vs, k);
    RunIsFinal(cfg, envs[..k], vs[..k]);
    RunDropsRepeats(cfg, envs[..k]);
    var s, t := Run(cfg, Empty(), envs[..k]), PgRun(cfg, NoRows(), envs[..k]);
    var m := SyncOnView(cfg, s, envs[k], vs[k], Heard(cfg, envs[k]));
    SyncKeepsConfirmedRows(cfg, s, t, vs[k], Heard(cfg, envs[k]), Sync(cfg, s.blocks, envs[k]), m, vs[..k]);
  }

  /** If no chain replaces a height an earlier chain had buried `confirmations` deep, a row that
      is confirmed after any number of Syncs is in the table, unchanged, after every
      continuation of the run, wherever Syncs fail and whatever conflicts there are. */
  lemma {:induction false} ConfirmedRowsAreFinal(cfg: Config, envs: seq<Env>, vs: seq<View>, j: nat)
    requires RunSees(envs, vs) && BoundedReorgs(cfg, vs) && j <= |envs|
    ensures KeepsConfirmedRows(PgRun(cfg, NoRows(), envs[..j]), PgRun(cfg, NoRows(), envs))
    decreases |envs|
  {
    if j == |envs| {
      assert envs[..j] == envs;
    } else {
      var k := |envs| - 1;
      BoundedPrefix(cfg, envs, vs, k);
      ConfirmedRowsAreFinal(cfg, envs[..k], vs[..k], j);
      assert envs[..k][..j] == envs[..j];
      LastStepKeepsConfirmedRows(cfg, envs, vs);
    }
  }

  /** After any run with any answers, more fault-free Syncs against one chain than the tables
      have divergent blocks leave the canonical blocks in the tables, whichever other Syncs
      fail in between, as long as the chain is no shorter than the index. */
  lemma {:induction false} TablesConverge(cfg: Config, envs: seq<Env>, v: View, more: seq<Env>)
    requires Linked(v) && AllFrom(more, v)
    requires Within(PgRun(cfg, NoRows(), envs).blocks, v)
    requires FaultFree(more, v) > |Divergent(PgRun(cfg, NoRows(), envs).blocks, v)|
    ensures PgRun(cfg, NoRows(), envs + more).blocks == Canon(v, cfg.startBlock)
  {
    RunDropsRepeats(cfg, envs);
    RunDropsRepeats(cfg, envs + more);
    RunAppend(cfg, Empty(), envs, more);
    ReorgConvergesDespiteFaults(cfg, Run(cfg, Empty(), envs), v, more);
  }

  /** After any run with any answers, and while the chain grows, a Sync without faults that
      comes after as many such Syncs as the tables had divergent blocks leaves the canonical
      blocks of the chain it sees, whichever other Syncs fail. */
  lemma {:induction false} TablesConvergeOnGrowingChain(cfg: Config, past: seq<Env>, envs: seq<Env>, vs: seq<View>)
    requires RunSees(envs, vs) && envs != [] && Growing(vs) && Within(PgRun(cfg, NoRows(), past).blocks, vs[0])
    requires FaultFreeOn(envs, vs) > |Divergent(PgRun(cfg, NoRows(), past).blocks, vs[0])|
    requires NeverFails(envs[|envs| - 1], vs[|vs| - 1])
    ensures PgRun(cfg, PgRun(cfg, NoRows(), past), envs).blocks == Canon(vs[|vs| - 1], cfg.startBlock)
  {
    RunDropsRepeats(cfg, past);
    RunFromDropsRepeats(cfg, Run(cfg, Empty(), past), PgRun(cfg, NoRows(), past), envs);
    GrowingChainConverges(cfg, Run(cfg, Empty(), past), envs, vs);
  }

  // Which confirmed rows a reorg of any depth spares.

  /** Rows of `u` with an id from before are rows of blocks that have been stored since. */
  ghost predicate OldRows(t: Tables, u: Tables) {
    && t.nextId <= u.nextId
    && forall row :: row in u.rows && row.id < t.nextId ==>
         row.block in t.blocks && row.block in u.blocks && u.blocks[row.block] == t.blocks[row.block]
  }

  lemma {:induction false} InsertAllNewIds(t: Tables, n: nat, xs: seq<Transfer>, c: bool)
    ensures InsertAll(t, n, xs, c).blocks == t.blocks && t.nextId <= InsertAll(t, n, xs, c).nextId
    ensures forall row :: row in InsertAll(t, n, xs, c).rows ==> row in t.rows || row.id >= t.nextId
  {
    if xs != [] {
      InsertAllNewIds(t, n, xs[..|xs| - 1], c);
    }
  }

  lemma {:induction false} SaveKeepsOldRows(t: Tables, u: Tables, a: Action)
    requires OldRows(t, u) && a.Save? && a.block.number !in u.blocks
    ensures OldRows(t, PgApply(u, a))
  {
    InsertAllNewIds(u.(blocks := u.blocks[a.block.number := a.block]), a.block.number, a.transfers, a.confirmed);
  }

  lemma {:induction false} DeleteKeepsOldRows(t: Tables, u: Tables, n: nat)
    requires OldRows(t, u) && Legal(u)
    ensures OldRows(t, PgApply(u, Delete(n)))
  {
    CascadeKeeps(u.blocks, u.rows, n);
  }

  lemma {:induction false} ConfirmKeepsOldRows(t: Tables, u: Tables, n: nat)
    requires OldRows(t, u)
    ensures OldRows(t, PgApply(u, Confirm(n)))
  {
    forall row | row in UpdateConfirmed(u.rows, n) && row.id < t.nextId
      ensures row.block in t.blocks && row.block in u.blocks && u.blocks[row.block] == t.blocks[row.block]
    {
      var i :| 0 <= i < |u.rows| && UpdateConfirmed(u.rows, n)[i] == row;
      assert u.rows[i] in u.rows;
    }
  }

  lemma {:induction false} WriteKeepsOldRows(t: Tables, u: Tables, a: Action)
    requires OldRows(t, u) && Legal(u) && (a.Save? ==> a.block.number !in u.blocks)
    ensures OldRows(t, PgApply(u, a))
  {
    match a
    case Save(_, _, _) => SaveKeepsOldRows(t, u, a);
    case Delete(n) => DeleteKeepsOldRows(t, u, n);
    case Confirm(n) => ConfirmKeepsOldRows(t, u, n);
  }

  lemma {:induction false} WritesKeepOldRows(start: nat, s: State, t: Tables, u: Tables, actions: seq<Action>)
    requires Indexed(start, s) && Disciplined(start, s, actions) && DropsRepeats(s, u) && OldRows(t, u)
    ensures OldRows(t, PgApplyAll(u, actions))
    decreases |actions|
  {
    if actions != [] {
      NextIsNew(start, s.blocks);
      WriteKeepsOldRows(t, u, actions[0]);
      if actions[0].Save? {
        ApplyKeepsIndexed(start, s, actions);
        WriteDropsRepeats(s, u, actions[0]);
        WritesKeepOldRows(start, Apply(s, actions[0]), t, PgApply(u, actions[0]), actions[1..]);
      }
    }
  }

  lemma {:induction false} RunKeepsOldRows(cfg: Config, s: State, t: Tables, envs: seq<Env>)
    requires Indexed(cfg.startBlock, s) && DropsRepeats(s, t)
    ensures OldRows(t, PgRun(cfg, t, envs))
  {
    if envs == [] {
      assert forall row :: row in t.rows ==> row.block in t.blocks;
    } else {
      var front, env := envs[..|envs| - 1], envs[|envs| - 1];
      RunKeepsOldRows(cfg, s, t, front);
      RunFromDropsRepeats(cfg, s, t, front);
      var s', u := Run(cfg, s, front), PgRun(cfg, t, front);
      SyncIsDisciplined(cfg, s', env);
      WritesKeepOldRows(cfg.startBlock, s', t, u, Sync(cfg, s'.blocks, env).actions);
    }
  }

  /** A Sync against `v` leaves a confirmed row of a block of `v` where it is. */
  lemma {:induction false} SyncKeepsCanonicalRow(cfg: Config, s: State, u: Tables, v: View, txs: nat -> seq<Transfer>, trace: Trace, m: nat, row: Row)
    requires DropsRepeats(s, u) && SyncedTo(cfg, s, v, txs, trace, m)
    requires row in u.rows && row.confirmed && IsCanonical(u.blocks, v, row.block)
    ensures row in PgApplyAll(u, trace.actions).rows
  {
    var n := Next(cfg.startBlock, s.blocks);
    if TipDiverges(s.blocks, v) && trace == Trace([Delete(n - 1)], RolledBack) {
      PgApplyOne(u, Delete(n - 1));
      CascadeKeeps(u.blocks, u.rows, n - 1);
      assert row.block in s.blocks.Keys;
    } else {
      if trace.actions != [] {
        SavesDeleteNothing(cfg, v, txs, n, m);
      }
      WritesKeepConfirmedRows(u, trace.actions);
    }
  }

  lemma {:induction false} RunKeepsCanonicalRow(cfg: Config, s: State, t: Tables, v: View, envs: seq<Env>, row: Row)
    requires Indexed(cfg.startBlock, s) && DropsRepeats(s, t) && Linked(v) && AllFrom(envs, v) && Within(t.blocks, v)
    requires row in t.rows && row.confirmed && IsCanonical(t.blocks, v, row.block)
    ensures row in PgRun(cfg, t, envs).rows
  {
    if envs != [] {
      var k := |envs| - 1;
      AllFromPrefix(envs, v, k);
      RunKeepsCanonicalRow(cfg, s, t, v, envs[..k], row);
      RunSparesCanonical(cfg, s, v, envs[..k]);
      RunFromDropsRepeats(cfg, s, t, envs[..k]);
      var s', u := Run(cfg, s, envs[..k]), PgRun(cfg, t, envs[..k]);
      assert HeadersAt(envs, v, k) && IsCanonical(s.blocks, v, row.block);
      var m := SyncOnView(cfg, s', envs[k], v, Heard(cfg, envs[k]));
      SyncKeepsCanonicalRow(cfg, s', u, v, Heard(cfg, envs[k]), Sync(cfg, s'.blocks, envs[k]), m, row);
    }
  }

  /** After any run with any answers, and then at least as many Syncs without faults against
      one chain no shorter than the index as the tables had divergent blocks, whichever others
      fail: a confirmed row is still in the table, with its id, exactly when the chain has the
      block it was confirmed in. */
  lemma {:induction false} ConfirmedRowSurvivesIff(cfg: Config, past: seq<Env>, v: View, envs: seq<Env>, row: Row)
    requires Linked(v) && AllFrom(envs, v) && Within(PgRun(cfg, NoRows(), past).blocks, v)
    requires FaultFree(envs, v) >= |Divergent(PgRun(cfg, NoRows(), past).blocks, v)|
    requires row in PgRun(cfg, NoRows(), past).rows && row.confirmed
    ensures var t := PgRun(cfg, NoRows(), past);
      row in PgRun(cfg, t, envs).rows <==> IsCanonical(t.blocks, v, row.block)
  {
    var s, t := Run(cfg, Empty(), past), PgRun(cfg, NoRows(), past);
    RunDropsRepeats(cfg, past);
    if IsCanonical(t.blocks, v, row.block) {
      RunKeepsCanonicalRow(cfg, s, t, v, envs, row);
    }
    if row in PgRun(cfg, t, envs).rows {
      SurvivorIsCanonical(cfg, s, t, v, envs, row);
    }
  }

  lemma {:induction false} SurvivorIsCanonical(cfg: Config, s: State, t: Tables, v: View, envs: seq<Env>, row: Row)
    requires Indexed(cfg.startBlock, s) && DropsRepeats(s, t) && Linked(v) && AllFrom(envs, v) && Within(t.blocks, v)
    requires FaultFree(envs, v) >= |Divergent(t.blocks, v)|
    requires row in t.rows && row in PgRun(cfg, t, envs).rows
    ensures IsCanonical(t.blocks, v, row.block)
  {
    RunFromDropsRepeats(cfg, s, t, envs);
    RunKeepsOldRows(cfg, s, t, envs);
    NothingDivergesAfter(cfg, s, v, envs);
    assert row.id < t.nextId;
    assert row.block !in Divergent(PgRun(cfg, t, envs).blocks, v);
  }

  /** So recovery keeps every confirmed row if and only if the chain still has the block of
      each of them. */
  lemma {:induction false} ReorgSparesConfirmedRowsIff(cfg: Config, past: seq<Env>, v: View, envs: seq<Env>)
    requires Linked(v) && AllFrom(envs, v) && Within(PgRun(cfg, NoRows(), past).blocks, v)
    requires FaultFree(envs, v) >= |Divergent(PgRun(cfg, NoRows(), past).blocks, v)|
    ensures var t := PgRun(cfg, NoRows(), past);
      KeepsConfirmedRows(t, PgRun(cfg, t, envs)) <==>
      forall row :: row in t.rows && row.confirmed ==> IsCanonical(t.blocks, v, row.block)
  {
    var t := PgRun(cfg, NoRows(), past);
    forall row | row in t.rows && row.confirmed ensures row in PgRun(cfg, t, envs).rows <==> IsCanonical(t.blocks, v, row.block) {
      ConfirmedRowSurvivesIff(cfg, past, v, envs, row);
    }
  }

  lemma {:induction false} FirstStays(ts: seq<StoredTransfer>)
    requires ts != []
    ensures FirstPerKey(ts) != [] && FirstPerKey(ts)[0] == ts[0]
  {
    if |ts| > 1 {
      FirstStays(ts[..|ts| - 1]);
    }
  }

  /** A confirmed row can be lost in just the way a confirmed transfer can. */
  lemma {:induction false} ConfirmedRowCanBeLost(cfg: Config, logs: seq<Log>) returns (v: View, w: View, first: Env, later: seq<Env>)
    requires |DecodeAll(cfg.topicID, logs)| > 0
    ensures var at := cfg.startBlock + 1;
      Linked(v) && Linked(w) && |v| == |w| == at + 1 + cfg.confirmations && v[..at] == w[..at]
    ensures ServesHeaders(first, v) && NeverFails(first, v) && AllServe(later, w)
    ensures var t, at := PgRun(cfg, NoRows(), [first]), cfg.startBlock + 1;
      && |t.rows| > 0 && t.rows[0].block == at && t.rows[0].transfer == DecodeAll(cfg.topicID, logs)[0] && t.rows[0].confirmed
      && (forall row :: row in PgRun(cfg, t, later).rows ==> row.block < at)
  {
    v, w, first, later := ConfirmedCanBeLost(cfg, logs);
    var s, t := Run(cfg, Empty(), [first]), PgRun(cfg, NoRows(), [first]);
    RunDropsRepeats(cfg, [first]);
    RunFromDropsRepeats(cfg, s, t, later);
    FirstStays(s.transfers);
    assert Forget(t.rows)[0] == s.transfers[0];
    RowsAreMembers(Run(cfg, s, later), PgRun(cfg, t, later), cfg.startBlock + 1);
  }

  lemma {:induction false} RowsAreMembers(s: State, t: Tables, n: nat)
    requires DropsRepeats(s, t) && forall x :: x in s.transfers ==> x.block < n
    ensures forall row :: row in t.rows ==> row.block < n
  {
    FirstAreMembers(s.transfers);
    forall row | row in t.rows ensures row.block < n {
      var i :| 0 <= i < |t.rows| && t.rows[i] == row;
      assert Forget(t.rows)[i] in FirstPerKey(s.transfers);
    }
  }
}
