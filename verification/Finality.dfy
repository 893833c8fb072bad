/** Finality: when a reorg can and cannot touch confirmed data. */
module Finality {
  import opened Chain
  import opened Erc20
  import opened StoreModel
  import opened SyncSpec
  import opened ChainInvariant
  import opened OnView

  /** Every confirmed transfer of `s` is still in `t`, at the same place, still confirmed. */
  ghost predicate KeepsConfirmed(s: State, t: State) {
    forall i :: 0 <= i < |s.transfers| && s.transfers[i].confirmed ==>
      i < |t.transfers| && t.transfers[i] == s.transfers[i]
  }

  /** The chains agree on every height that the earlier one had buried deep enough. */
  ghost predicate RespectsFinality(cfg: Config, earlier: View, later: View) {
    forall n: nat :: n + cfg.confirmations < |earlier| && n < |later| ==> later[n] == earlier[n]
  }

  /** No chain of the run replaces a height that an earlier one had buried deep enough. */
  ghost predicate BoundedReorgs(cfg: Config, vs: seq<View>) {
    forall j, i :: 0 <= j < i < |vs| ==> RespectsFinality(cfg, vs[j], vs[i])
  }

  /** Height `n` was deep in a chain that was seen, and the stored block is from it. */
  ghost predicate SettledBy(cfg: Config, blocks: map<nat, Block>, v: View, n: nat) {
    n + cfg.confirmations < |v| && n in blocks && blocks[n].hash == HashOf(v[n])
  }

  ghost predicate Settled(cfg: Config, blocks: map<nat, Block>, vs: seq<View>, n: nat) {
    exists j :: 0 <= j < |vs| && SettledBy(cfg, blocks, vs[j], n)
  }

  ghost predicate Final(cfg: Config, s: State, vs: seq<View>) {
    forall i :: 0 <= i < |s.transfers| && s.transfers[i].confirmed ==>
      Settled(cfg, s.blocks, vs, s.transfers[i].block)
  }

  lemma {:induction false} SettledStays(cfg: Config, blocks: map<nat, Block>, vs: seq<View>, n: nat, more: map<nat, Block>, v: View)
    requires Settled(cfg, blocks, vs, n)
    requires n in blocks ==> n in more && more[n] == blocks[n]
    ensures Settled(cfg, more, vs + [v], n)
  {
    var j :| 0 <= j < |vs| && SettledBy(cfg, blocks, vs[j], n);
    assert (vs + [v])[j] == vs[j];
    assert SettledBy(cfg, more, (vs + [v])[j], n);
  }

  lemma {:induction false} SaveKeepsFinal(cfg: Config, s: State, v: View, txs: nat -> seq<Transfer>, n: nat, vs: seq<View>, k: nat)
    requires At(cfg, s, v, n) && n < |v| && Final(cfg, s, vs) && k < |vs| && vs[k] == v
    ensures var t := Apply(s, SaveOf(cfg, v, txs, n)); Final(cfg, t, vs) && KeepsConfirmed(s, t)
  {
    var t := Apply(s, SaveOf(cfg, v, txs, n));
    forall i | 0 <= i < |t.transfers| && t.transfers[i].confirmed
      ensures Settled(cfg, t.blocks, vs, t.transfers[i].block)
    {
      if i < |s.transfers| {
        var m := s.transfers[i].block;
        assert t.transfers[i] == s.transfers[i];
        var j :| 0 <= j < |vs| && SettledBy(cfg, s.blocks, vs[j], m);
        assert SettledBy(cfg, t.blocks, vs[j], m);
      } else {
        assert SettledBy(cfg, t.blocks, vs[k], n);
      }
    }
  }

  lemma {:induction false} SavesKeepFinal(cfg: Config, s: State, v: View, txs: nat -> seq<Transfer>, n: nat, m: nat, vs: seq<View>, k: nat)
    requires Linked(v) && At(cfg, s, v, n) && n <= m <= Target(v, n)
    requires Final(cfg, s, vs) && k < |vs| && vs[k] == v
    ensures var t := ApplyAll(s, Saves(cfg, v, txs, n, m)); Final(cfg, t, vs) && KeepsConfirmed(s, t)
    decreases m - n
  {
    if n < m {
      SaveKeepsFinal(cfg, s, v, txs, n, vs, k);
      SaveMovesOn(cfg, s, v, txs, n);
      SavesKeepFinal(cfg, Apply(s, SaveOf(cfg, v, txs, n)), v, txs, n + 1, m, vs, k);
      SavesFront(cfg, v, txs, n, m);
      ApplyCons(s, SaveOf(cfg, v, txs, n), Saves(cfg, v, txs, n + 1, m));
    }
  }

  lemma {:induction false} PromotionKeepsFinal(cfg: Config, s: State, v: View, m: nat, vs: seq<View>, k: nat)
    requires |v| > 0 && At(cfg, s, v, m) && Final(cfg, s, vs) && k < |vs| && vs[k] == v
    ensures var t := ApplyAll(s, Promotion(cfg, v)); Final(cfg, t, vs) && KeepsConfirmed(s, t)
  {
    PromotionKeepsBlocks(cfg, s, v);
    var t := ApplyAll(s, Promotion(cfg, v));
    forall i | 0 <= i < |t.transfers| && t.transfers[i].confirmed
      ensures Settled(cfg, t.blocks, vs, t.transfers[i].block)
    {
      if !s.transfers[i].confirmed {
        assert s.transfers[i].block in s.blocks;
        assert SettledBy(cfg, t.blocks, vs[k], t.transfers[i].block);
      }
    }
  }

  /** The tip of a store that diverges from a later chain has no confirmed transfers. */
  lemma {:induction false} ConfirmedBelowTip(cfg: Config, s: State, v: View, vs: seq<View>)
    requires Indexed(cfg.startBlock, s) && TipDiverges(s.blocks, v) && Final(cfg, s, vs)
    requires forall j :: 0 <= j < |vs| ==> RespectsFinality(cfg, vs[j], v)
    ensures forall i :: 0 <= i < |s.transfers| && s.transfers[i].confirmed ==> s.transfers[i].block < MaxKey(s.blocks.Keys)
  {
    forall i | 0 <= i < |s.transfers| && s.transfers[i].confirmed ensures s.transfers[i].block < MaxKey(s.blocks.Keys) {
      var n := s.transfers[i].block;
      var j :| 0 <= j < |vs| && SettledBy(cfg, s.blocks, vs[j], n);
      assert RespectsFinality(cfg, vs[j], v);
      assert n in s.blocks;
    }
  }

  lemma {:induction false} RollbackKeepsFinal(cfg: Config, s: State, v: View, vs: seq<View>)
    requires Indexed(cfg.startBlock, s) && TipDiverges(s.blocks, v) && Final(cfg, s, vs)
    requires forall j :: 0 <= j < |vs| ==> RespectsFinality(cfg, vs[j], v)
    ensures var t := Apply(s, Delete(MaxKey(s.blocks.Keys))); Final(cfg, t, vs + [v]) && KeepsConfirmed(s, t)
  {
    var tip := MaxKey(s.blocks.Keys);
    var t := Apply(s, Delete(tip));
    DeleteTipIsMinimal(cfg.startBlock, s);
    ConfirmedBelowTip(cfg, s, v, vs);
    forall i | 0 <= i < |t.transfers| && t.transfers[i].confirmed
      ensures Settled(cfg, t.blocks, vs + [v], t.transfers[i].block)
    {
      assert t.transfers[i] == s.transfers[i];
      SettledStays(cfg, s.blocks, vs, s.transfers[i].block, t.blocks, v);
    }
  }

  lemma {:induction false} FinalWithMoreViews(cfg: Config, s: State, vs: seq<View>, v: View)
    requires Final(cfg, s, vs)
    ensures Final(cfg, s, vs + [v])
  {
    forall i | 0 <= i < |s.transfers| && s.transfers[i].confirmed
      ensures Settled(cfg, s.blocks, vs + [v], s.transfers[i].block)
    {
      SettledStays(cfg, s.blocks, vs, s.transfers[i].block, s.blocks, v);
    }
  }

  lemma {:induction false} SyncKeepsFinal(cfg: Config, s: State, v: View, txs: nat -> seq<Transfer>, trace: Trace, m: nat, vs: seq<View>)
    requires Indexed(cfg.startBlock, s) && Linked(v) && Final(cfg, s, vs)
    requires forall j :: 0 <= j < |vs| ==> RespectsFinality(cfg, vs[j], v)
    requires SyncedTo(cfg, s, v, txs, trace, m)
    ensures var t := ApplyAll(s, trace.actions); Final(cfg, t, vs + [v]) && KeepsConfirmed(s, t)
  {
    FinalWithMoreViews(cfg, s, vs, v);
    var n := Next(cfg.startBlock, s.blocks);
    if trace.actions == [] {
    } else if TipDiverges(s.blocks, v) && trace == Trace([Delete(n - 1)], RolledBack) {
      RollbackKeepsFinal(cfg, s, v, vs);
      ApplyOne(s, Delete(n - 1));
    } else {
      AdvanceReaches(cfg, s, v, txs, trace, m);
      SavesKeepFinal(cfg, s, v, txs, n, m, vs + [v], |vs|);
      PromotionKeepsFinal(cfg, ApplyAll(s, Saves(cfg, v, txs, n, m)), v, m, vs + [v], |vs|);
    }
  }

  lemma {:induction false} RunIsFinal(cfg: Config, envs: seq<Env>, vs: seq<View>)
    requires RunSees(envs, vs) && BoundedReorgs(cfg, vs)
    ensures Final(cfg, Run(cfg, Empty(), envs), vs)
    decreases |envs|
  {
    if envs != [] {
      var k := |envs| - 1;
      RunIsFinal(cfg, envs[..k], vs[..k]);
      StepIsFinal(cfg, Run(cfg, Empty(), envs[..k]), envs, vs);
    }
  }

  lemma {:induction false} StepIsFinal(cfg: Config, s: State, envs: seq<Env>, vs: seq<View>)
    requires envs != [] && RunSees(envs, vs) && BoundedReorgs(cfg, vs)
    requires s == Run(cfg, Empty(), envs[..|envs| - 1]) && Final(cfg, s, vs[..|vs| - 1])
    ensures Final(cfg, SyncStep(cfg, s, envs[|envs| - 1]), vs)
    ensures KeepsConfirmed(s, SyncStep(cfg, s, envs[|envs| - 1]))
  {
    var k := |envs| - 1;
    RunKeepsIndexed(cfg, Empty(), envs[..k]);
    var m := SyncOnView(cfg, s, envs[k], vs[k], Heard(cfg, envs[k]));
    SyncKeepsFinal(cfg, s, vs[k], Heard(cfg, envs[k]), Sync(cfg, s.blocks, envs[k]), m, vs[..k]);
    assert vs[..k] + [vs[k]] == vs;
  }

  lemma {:induction false} KeepsConfirmedTransitive(a: State, b: State, c: State)
    requires KeepsConfirmed(a, b) && KeepsConfirmed(b, c)
    ensures KeepsConfirmed(a, c)
  {
  }

  lemma {:induction false} BoundedPrefix(cfg: Config, envs: seq<Env>, vs: seq<View>, k: nat)
    requires RunSees(envs, vs) && BoundedReorgs(cfg, vs) && k <= |envs|
    ensures RunSees(envs[..k], vs[..k]) && BoundedReorgs(cfg, vs[..k])
  {
  }

  /** If no chain replaces a height an earlier chain had buried `confirmations` deep, then a
      transfer that is confirmed after any number of Syncs is in the store, at the same place
      and confirmed, after every continuation of the run, wherever Syncs fail. */
  lemma {:induction false} ConfirmedIsFinal(cfg: Config, envs: seq<Env>, vs: seq<View>, j: nat)
    requires RunSees(envs, vs) && BoundedReorgs(cfg, vs) && j <= |envs|
    ensures KeepsConfirmed(Run(cfg, Empty(), envs[..j]), Run(cfg, Empty(), envs))
    decreases |envs|
  {
    if j == |envs| {
      assert envs[..j] == envs;
    } else {
      var k := |envs| - 1;
      BoundedPrefix(cfg, envs, vs, k);
      ConfirmedIsFinal(cfg, envs[..k], vs[..k], j);
      assert envs[..k][..j] == envs[..j];
      LastStepKeepsConfirmed(cfg, envs, vs);
      KeepsConfirmedTransitive(Run(cfg, Empty(), envs[..j]), Run(cfg, Empty(), envs[..k]), Run(cfg, Empty(), envs));
    }
  }

  lemma {:induction false} LastStepKeepsConfirmed(cfg: Config, envs: seq<Env>, vs: seq<View>)
    requires envs != [] && RunSees(envs, vs) && BoundedReorgs(cfg, vs)
    ensures KeepsConfirmed(Run(cfg, Empty(), envs[..|envs| - 1]), Run(cfg, Empty(), envs))
  {
    var k := |envs| - 1;
    BoundedPrefix(cfg, envs, vs, k);
    RunIsFinal(cfg, envs[..k], vs[..k]);
    StepIsFinal(cfg, Run(cfg, Empty(), envs[..k]), envs, vs);
  }
}
