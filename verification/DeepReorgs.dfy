/** Reorgs of any depth: what recovery, with faults, spares of the index, and that confirmed
    data can be lost. */
module DeepReorgs {
  import opened Options
  import opened Bytes
  import opened Chain
  import opened Erc20
  import opened StoreModel
  import opened SyncSpec
  import opened ChainInvariant
  import opened OnView
  import opened Convergence
  import opened IndexSpec
  import opened Finality

  /** Block `n` of the store is the block of `v` there. */
  ghost predicate IsCanonical(blocks: map<nat, Block>, v: View, n: nat) {
    n in blocks && n < |v| && blocks[n].hash == HashOf(v[n])
  }

  /** Every stored block of `v` is still stored, with its transfers in place and no less
      confirmed. */
  ghost predicate SparesCanonical(s: State, v: View, t: State) {
    && (forall n :: IsCanonical(s.blocks, v, n) ==> n in t.blocks && t.blocks[n] == s.blocks[n])
    && (forall i :: 0 <= i < |s.transfers| && IsCanonical(s.blocks, v, s.transfers[i].block) ==>
          KeptAt(s.transfers, t.transfers, i))
  }

  lemma {:induction false} SparesTransitive(s: State, v: View, t: State, u: State)
    requires SparesCanonical(s, v, t) && SparesCanonical(t, v, u)
    ensures SparesCanonical(s, v, u)
  {
    forall n | IsCanonical(s.blocks, v, n) ensures n in u.blocks && u.blocks[n] == s.blocks[n] {
      assert IsCanonical(t.blocks, v, n);
    }
    forall i | 0 <= i < |s.transfers| && IsCanonical(s.blocks, v, s.transfers[i].block) ensures KeptAt(s.transfers, u.transfers, i) {
      assert KeptAt(s.transfers, t.transfers, i);
      assert IsCanonical(t.blocks, v, s.transfers[i].block);
      assert KeptAt(t.transfers, u.transfers, i);
    }
  }

  /** `t` is `s` without block `tip`, the highest, and its transfers. */
  ghost predicate TipCut(s: State, t: State, tip: nat) {
    && t.blocks == s.blocks - {tip} && |t.transfers| <= |s.transfers| && t.transfers == s.transfers[..|t.transfers|]
    && (forall i :: 0 <= i < |t.transfers| ==> s.transfers[i].block != tip)
    && (forall i :: |t.transfers| <= i < |s.transfers| ==> s.transfers[i].block == tip)
  }

  lemma {:induction false} CutIsTipCut(start: nat, s: State, v: View, t: State) returns (tip: nat)
    requires Indexed(start, s) && CutsTip(start, s, v, t)
    ensures TipCut(s, t, tip) && !IsCanonical(s.blocks, v, tip)
  {
    tip := MaxKey(s.blocks.Keys);
    DeleteTipIsMinimal(start, s);
  }

  lemma {:induction false} TipCutSparesCanonical(s: State, v: View, t: State, tip: nat)
    requires TipCut(s, t, tip) && !IsCanonical(s.blocks, v, tip)
    ensures SparesCanonical(s, v, t)
  {
    forall i | 0 <= i < |s.transfers| && IsCanonical(s.blocks, v, s.transfers[i].block) ensures KeptAt(s.transfers, t.transfers, i) {
    }
  }

  lemma {:induction false} SyncSparesCanonical(cfg: Config, s: State, env: Env, v: View)
    requires Indexed(cfg.startBlock, s) && Linked(v) && ServesHeaders(env, v) && Within(s.blocks, v)
    ensures SparesCanonical(s, v, SyncStep(cfg, s, env)) && Within(SyncStep(cfg, s, env).blocks, v)
  {
    SyncConverges(cfg, s, env, v);
    ConvergingSparesCanonical(cfg, s, v, SyncStep(cfg, s, env), NeverFails(env, v));
  }

  lemma {:induction false} ConvergingSparesCanonical(cfg: Config, s: State, v: View, t: State, faultless: bool)
    requires Indexed(cfg.startBlock, s) && Converging(cfg, s, v, t, faultless)
    ensures SparesCanonical(s, v, t)
  {
    if CutsTip(cfg.startBlock, s, v, t) {
      var tip := CutIsTipCut(cfg.startBlock, s, v, t);
      TipCutSparesCanonical(s, v, t, tip);
    } else {
      GrowsReflexive(s);
      assert Grows(s, t);
    }
  }

  /** Against one chain no shorter than the index, whichever calls fail, canonical blocks and
      their transfers stay. */
  lemma {:induction false} RunSparesCanonical(cfg: Config, s: State, v: View, envs: seq<Env>)
    requires Indexed(cfg.startBlock, s) && Linked(v) && AllFrom(envs, v) && Within(s.blocks, v)
    ensures SparesCanonical(s, v, Run(cfg, s, envs)) && Within(Run(cfg, s, envs).blocks, v)
  {
    if envs == [] {
      GrowsReflexive(s);
    } else {
      var k := |envs| - 1;
      var t := Run(cfg, s, envs[..k]);
      AllFromPrefix(envs, v, k);
      RunSparesCanonical(cfg, s, v, envs[..k]);
      RunKeepsIndexed(cfg, s, envs[..k]);
      assert HeadersAt(envs, v, k);
      SyncSparesCanonical(cfg, t, envs[k], v);
      SparesTransitive(s, v, t, SyncStep(cfg, t, envs[k]));
    }
  }

  /** After at least as many Syncs without faults as there were divergent blocks, and any
      number with faults, a stored block, confirmed or not, is still stored unchanged exactly
      when the chain has it. */
  lemma {:induction false} SurvivesIffStillCanonical(cfg: Config, s: State, v: View, envs: seq<Env>, n: nat)
    requires Indexed(cfg.startBlock, s) && Linked(v) && AllFrom(envs, v) && Within(s.blocks, v)
    requires FaultFree(envs, v) >= |Divergent(s.blocks, v)| && n in s.blocks
    ensures var t := Run(cfg, s, envs);
      n in t.blocks && t.blocks[n] == s.blocks[n] <==> s.blocks[n].hash == HashOf(v[n])
  {
    RunSparesCanonical(cfg, s, v, envs);
    NothingDivergesAfter(cfg, s, v, envs);
    var t := Run(cfg, s, envs);
    assert IsCanonical(s.blocks, v, n) <==> s.blocks[n].hash == HashOf(v[n]);
    assert n in t.blocks ==> n !in Divergent(t.blocks, v);
  }

  lemma {:induction false} NothingDivergesAfter(cfg: Config, s: State, v: View, envs: seq<Env>)
    requires Indexed(cfg.startBlock, s) && Linked(v) && AllFrom(envs, v) && Within(s.blocks, v)
    requires FaultFree(envs, v) >= |Divergent(s.blocks, v)|
    ensures Divergent(Run(cfg, s, envs).blocks, v) == {}
  {
    ReorgConvergesDespiteFaults(cfg, s, v, envs);
    CanonDoesNotDiverge(cfg, v);
  }

  /** The confirmed transfers of `s` are all there after the first `j` Syncs. */
  ghost predicate KeepsAt(cfg: Config, s: State, envs: seq<Env>, j: nat)
    requires j <= |envs|
  {
    KeepsConfirmed(s, Run(cfg, s, envs[..j]))
  }

  ghost predicate ConfirmedIsCanonical(s: State, v: View) {
    forall i :: 0 <= i < |s.transfers| && s.transfers[i].confirmed ==> IsCanonical(s.blocks, v, s.transfers[i].block)
  }

  lemma {:induction false} SparedIsKept(s: State, v: View, t: State)
    requires SparesCanonical(s, v, t) && ConfirmedIsCanonical(s, v)
    ensures KeepsConfirmed(s, t)
  {
    forall i | 0 <= i < |s.transfers| && s.transfers[i].confirmed ensures i < |t.transfers| && t.transfers[i] == s.transfers[i] {
      assert KeptAt(s.transfers, t.transfers, i);
    }
  }

  /** A step that keeps a transfer in place keeps its block. */
  lemma {:induction false} KeptTransferKeepsBlock(cfg: Config, t: State, v: View, t': State, faultless: bool, i: nat)
    requires Indexed(cfg.startBlock, t) && Converging(cfg, t, v, t', faultless)
    requires i < |t.transfers| && i < |t'.transfers| && t'.transfers[i].block == t.transfers[i].block
    ensures var n := t.transfers[i].block; n in t.blocks && n in t'.blocks && t'.blocks[n] == t.blocks[n]
  {
    var n := t.transfers[i].block;
    assert n in t.blocks;
    if CutsTip(cfg.startBlock, t, v, t') {
      var tip := CutIsTipCut(cfg.startBlock, t, v, t');
      assert n != tip;
    } else {
      GrowsReflexive(t);
      assert Grows(t, t');
    }
  }

  /** The block of transfer `i` of `s` is still stored. */
  ghost predicate BlockKept(s: State, t: State, i: nat)
    requires i < |s.transfers|
  {
    var n := s.transfers[i].block;
    n in s.blocks && n in t.blocks && t.blocks[n] == s.blocks[n]
  }

  lemma {:induction false} BlockKeptOnce(cfg: Config, s: State, t: State, env: Env, v: View, i: nat)
    requires Indexed(cfg.startBlock, t) && Linked(v) && ServesHeaders(env, v) && Within(t.blocks, v)
    requires KeepsConfirmed(s, t) && KeepsConfirmed(s, SyncStep(cfg, t, env))
    requires i < |s.transfers| && s.transfers[i].confirmed && BlockKept(s, t, i)
    ensures BlockKept(s, SyncStep(cfg, t, env), i)
  {
    SyncConverges(cfg, t, env, v);
    KeptTransferKeepsBlock(cfg, t, v, SyncStep(cfg, t, env), NeverFails(env, v), i);
  }

  lemma {:induction false} KeptThroughout(cfg: Config, s: State, v: View, envs: seq<Env>, i: nat, j: nat)
    requires Indexed(cfg.startBlock, s) && Linked(v) && AllFrom(envs, v) && Within(s.blocks, v) && j <= |envs|
    requires forall k :: 0 <= k <= |envs| ==> KeepsAt(cfg, s, envs, k)
    requires i < |s.transfers| && s.transfers[i].confirmed
    ensures BlockKept(s, Run(cfg, s, envs[..j]), i)
    decreases j
  {
    if j == 0 {
      assert envs[..j] == [] && s.transfers[i].block in s.blocks;
    } else {
      KeptThroughout(cfg, s, v, envs, i, j - 1);
      AllFromPrefix(envs, v, j - 1);
      RunSparesCanonical(cfg, s, v, envs[..j - 1]);
      RunKeepsIndexed(cfg, s, envs[..j - 1]);
      assert HeadersAt(envs, v, j - 1) && KeepsAt(cfg, s, envs, j - 1) && KeepsAt(cfg, s, envs, j);
      assert envs[..j][..j - 1] == envs[..j - 1];
      BlockKeptOnce(cfg, s, Run(cfg, s, envs[..j - 1]), envs[j - 1], v, i);
    }
  }

  /** Recovery from a reorg, with faults, keeps every confirmed transfer in the store at every
      point if and only if the new chain still has the block of each of them. */
  lemma {:induction false} ReorgSparesConfirmedIff(cfg: Config, s: State, v: View, envs: seq<Env>)
    requires Indexed(cfg.startBlock, s) && Linked(v) && AllFrom(envs, v) && Within(s.blocks, v)
    requires FaultFree(envs, v) >= |Divergent(s.blocks, v)|
    ensures (forall j :: 0 <= j <= |envs| ==> KeepsAt(cfg, s, envs, j)) <==> ConfirmedIsCanonical(s, v)
  {
    if ConfirmedIsCanonical(s, v) {
      forall j | 0 <= j <= |envs| ensures KeepsAt(cfg, s, envs, j) {
        AllFromPrefix(envs, v, j);
        RunSparesCanonical(cfg, s, v, envs[..j]);
        SparedIsKept(s, v, Run(cfg, s, envs[..j]));
      }
    }
    if forall j :: 0 <= j <= |envs| ==> KeepsAt(cfg, s, envs, j) {
      forall i | 0 <= i < |s.transfers| && s.transfers[i].confirmed ensures IsCanonical(s.blocks, v, s.transfers[i].block) {
        KeptThroughout(cfg, s, v, envs, i, |envs|);
        assert envs[..|envs|] == envs;
        SurvivesIffStillCanonical(cfg, s, v, envs, s.transfers[i].block);
      }
    }
  }

  /** Right after the rollbacks, when there are no faults and before anything is indexed
      again, the same holds of the store at that point. */
  lemma {:induction false} RollbacksSpareConfirmedIff(cfg: Config, s: State, v: View, envs: seq<Env>)
    requires Indexed(cfg.startBlock, s) && Linked(v) && AllServe(envs, v) && Within(s.blocks, v)
    requires |envs| == |Divergent(s.blocks, v)|
    ensures KeepsConfirmed(s, Run(cfg, s, envs)) <==> ConfirmedIsCanonical(s, v)
  {
    var fork := RecoveryCutsAtFork(cfg, s, v, envs);
    TruncationKeepsIff(s, fork);
    forall i | 0 <= i < |s.transfers|
      ensures s.transfers[i].block < fork <==> IsCanonical(s.blocks, v, s.transfers[i].block)
    {
      assert s.transfers[i].block in s.blocks;
    }
  }

  /** Recovery cuts the store off at the first height where the chain has another block. */
  lemma {:induction false} RecoveryCutsAtFork(cfg: Config, s: State, v: View, envs: seq<Env>) returns (fork: nat)
    requires Indexed(cfg.startBlock, s) && Linked(v) && AllServe(envs, v)
    requires Within(s.blocks, v)
    requires |envs| == |Divergent(s.blocks, v)|
    ensures Run(cfg, s, envs) == Apply(s, Delete(fork))
    ensures forall n :: n in s.blocks ==> (n < fork <==> s.blocks[n].hash == HashOf(v[n]))
  {
    fork := RecoveryIsCut(cfg, s, v, envs);
    BelowForkIff(cfg.startBlock, s.blocks, v);
  }

  lemma {:induction false} RecoveryIsCut(cfg: Config, s: State, v: View, envs: seq<Env>) returns (fork: nat)
    requires Indexed(cfg.startBlock, s) && Linked(v) && AllServe(envs, v)
    requires Within(s.blocks, v)
    requires |envs| == |Divergent(s.blocks, v)|
    ensures fork + |Divergent(s.blocks, v)| == Next(cfg.startBlock, s.blocks) && Run(cfg, s, envs) == Apply(s, Delete(fork))
  {
    RecoveryTruncates(cfg, s, v, envs);
    fork := CutBackIsDelete(cfg.startBlock, s, v, Run(cfg, s, envs), |envs|);
  }

  lemma {:induction false} CutBackIsDelete(start: nat, s: State, v: View, t: State, k: nat) returns (fork: nat)
    requires CutBack(start, s, v, t, k)
    ensures fork + k == Next(start, s.blocks) && t == Apply(s, Delete(fork))
  {
    fork := Next(start, s.blocks) - k;
  }

  lemma {:induction false} BelowForkIff(start: nat, blocks: map<nat, Block>, v: View)
    requires Chained(start, blocks) && Linked(v) && Within(blocks, v)
    ensures var d := |Divergent(blocks, v)|; d <= Next(start, blocks)
    ensures forall n :: n in blocks ==> (n < Next(start, blocks) - |Divergent(blocks, v)| <==> blocks[n].hash == HashOf(v[n]))
  {
    DivergenceIsSuffix(start, blocks, v);
    var fork := Next(start, blocks) - |Divergent(blocks, v)|;
    forall n | n in blocks ensures n < fork <==> blocks[n].hash == HashOf(v[n]) {
      if n < fork {
        assert blocks[n] == BlockOf(n, v[n]);
      }
    }
  }

  lemma {:induction false} TruncationKeepsIff(s: State, n: nat)
    requires Sorted(s.transfers)
    ensures KeepsConfirmed(s, Apply(s, Delete(n))) <==>
      forall i :: 0 <= i < |s.transfers| && s.transfers[i].confirmed ==> s.transfers[i].block < n
  {
    BelowTruncates(s.transfers, n);
    BelowMembers(s.transfers, n);
  }

  /** A chain of `len` blocks that every salt shares below `fork` and none from there on. */
  function Branch(len: nat, fork: nat, salt: Byte): (v: View)
    ensures |v| == len
    ensures forall i :: 0 <= i < len ==> v[i].number == i && v[i].extra == if i < fork then [] else [salt]
  {
    if len == 0 then []
    else
      var front := Branch(len - 1, fork, salt);
      var parent := if len == 1 then Plain(seq(32, _ => 0)) else HashOf(front[len - 2]);
      front + [Header(len - 1, parent, len - 1, if len - 1 < fork then [] else [salt])]
  }

  lemma {:induction false} BranchIsLinked(len: nat, fork: nat, salt: Byte)
    requires len > 0
    ensures Linked(Branch(len, fork, salt))
  {
    var v := Branch(len, fork, salt);
    if len > 1 {
      BranchIsLinked(len - 1, fork, salt);
      forall i | 0 < i < len ensures BuildsOnParent(v, i) {
        assert i < len - 1 ==> BuildsOnParent(Branch(len - 1, fork, salt), i);
      }
    }
  }

  lemma {:induction false} BranchesShare(len: nat, fork: nat, a: Byte, b: Byte)
    requires fork <= len
    ensures Branch(len, fork, a)[..fork] == Branch(len, fork, b)[..fork]
    decreases len
  {
    if fork < len {
      BranchesShare(len - 1, fork, a, b);
      assert Branch(len, fork, a)[..fork] == Branch(len - 1, fork, a)[..fork];
      assert Branch(len, fork, b)[..fork] == Branch(len - 1, fork, b)[..fork];
    } else {
      SameBelowFork(len, fork, a, b);
    }
  }

  lemma {:induction false} SameBelowFork(len: nat, fork: nat, a: Byte, b: Byte)
    requires len <= fork
    ensures Branch(len, fork, a) == Branch(len, fork, b)
  {
    if len > 0 {
      SameBelowFork(len - 1, fork, a, b);
    }
  }

  /** A node that never fails, on `v`, whose one block with logs is at height `at`. */
  function Node(v: View, at: nat, logs: seq<Log>): Env
    requires |v| > 0
  {
    Env(Some(v[|v| - 1]),
        (n: nat) => if n < |v| then Some(v[n]) else None,
        (n: nat) => Some(if n == at then logs else []),
        (n: nat) => false,
        (c: StoreCall) => false)
  }

  /** The transfers of each block of `v` by hash: those of `logs` for block `at` alone. */
  ghost predicate OnlyAt(cfg: Config, txsOf: Hash -> seq<Transfer>, v: View, at: nat, logs: seq<Log>) {
    forall n: nat :: n < |v| ==> txsOf(HashOf(v[n])) == if n == at then DecodeAll(cfg.topicID, logs) else []
  }

  /** Such a function for two chains that both have those logs at that height. */
  function TxsOfBoth(cfg: Config, v: View, w: View, at: nat, logs: seq<Log>): Hash -> seq<Transfer>
    requires at < |v| && at < |w|
  {
    (h: Hash) => if h == HashOf(v[at]) || h == HashOf(w[at]) then DecodeAll(cfg.topicID, logs) else []
  }

  lemma {:induction false} TxsOfBothAreOnlyAt(cfg: Config, v: View, w: View, at: nat, logs: seq<Log>)
    requires Linked(v) && Linked(w) && at < |v| && at < |w|
    ensures OnlyAt(cfg, TxsOfBoth(cfg, v, w, at, logs), v, at, logs)
    ensures OnlyAt(cfg, TxsOfBoth(cfg, v, w, at, logs), w, at, logs)
  {
    forall n: nat | n < |v| && n != at ensures HashOf(v[n]) != HashOf(v[at]) && HashOf(v[n]) != HashOf(w[at]) {
      assert v[n].number == n && v[at].number == at == w[at].number;
    }
    forall n: nat | n < |w| && n != at ensures HashOf(w[n]) != HashOf(v[at]) && HashOf(w[n]) != HashOf(w[at]) {
      assert w[n].number == n && v[at].number == at == w[at].number;
    }
  }

  lemma {:induction false} NodeServes(v: View, at: nat, logs: seq<Log>)
    requires Linked(v)
    ensures ServesHeaders(Node(v, at, logs), v) && NeverFails(Node(v, at, logs), v)
  {
  }

  lemma {:induction false} NodeIsSeen(cfg: Config, txsOf: Hash -> seq<Transfer>, v: View, at: nat, logs: seq<Log>)
    requires Linked(v) && OnlyAt(cfg, txsOf, v, at, logs)
    ensures Sees(cfg, Node(v, at, logs), v, txsOf)
  {
    NodeServes(v, at, logs);
    var env, txs := Node(v, at, logs), TxsAt(v, txsOf);
    forall n: nat | n < |v| ensures DecodeAll(cfg.topicID, env.logs(n).value) == txs(n) {
      assert txs(n) == txsOf(HashOf(v[n]));
    }
  }

  /** Indexing a node on `v` from an empty store gives the index of `v`. */
  lemma {:induction false} FirstSync(cfg: Config, txsOf: Hash -> seq<Transfer>, v: View, at: nat, logs: seq<Log>)
    requires Linked(v) && OnlyAt(cfg, txsOf, v, at, logs)
    ensures Run(cfg, Empty(), [Node(v, at, logs)]) == IndexOf(cfg, v, txsOf)
  {
    var env := Node(v, at, logs);
    NodeServes(v, at, logs);
    NodeIsSeen(cfg, txsOf, v, at, logs);
    var m := SyncOnView(cfg, Empty(), env, v, TxsAt(v, txsOf));
    IndexIsFunctionOfChain(cfg, [], [], txsOf, env, v);
    RunSnoc(cfg, Empty(), [], env);
    assert [] + [env] == [env];
  }

  lemma {:induction false} CollectNone(txsOf: Hash -> seq<Transfer>, blocks: map<nat, Block>, a: nat, b: nat)
    requires forall n :: a <= n < b ==> n in blocks && txsOf(blocks[n].hash) == []
    ensures Collect(txsOf, blocks, a, b) == []
  {
    if a < b {
      CollectNone(txsOf, blocks, a, b - 1);
    }
  }

  lemma {:induction false} FirstCollected(txsOf: Hash -> seq<Transfer>, blocks: map<nat, Block>, a: nat, at: nat, b: nat)
    requires a <= at < b && forall n :: a <= n < b ==> n in blocks
    requires (forall n :: a <= n < at ==> txsOf(blocks[n].hash) == []) && txsOf(blocks[at].hash) != []
    ensures |Collect(txsOf, blocks, a, b)| > 0
    ensures Collect(txsOf, blocks, a, b)[0] == StoredTransfer(at, txsOf(blocks[at].hash)[0], false)
  {
    CollectNone(txsOf, blocks, a, at);
    CollectPrefix(txsOf, blocks, a, at + 1, b);
    assert Tag(at, txsOf(blocks[at].hash), false)[0] == Collect(txsOf, blocks, a, at + 1)[0];
  }

  /** The first stored transfer is the one of block `at`, and it is confirmed. */
  lemma {:induction false} FirstIsConfirmed(cfg: Config, txsOf: Hash -> seq<Transfer>, v: View, at: nat, logs: seq<Log>)
    requires OnlyAt(cfg, txsOf, v, at, logs)
    requires cfg.startBlock <= at && at + cfg.confirmations < |v| && |DecodeAll(cfg.topicID, logs)| > 0
    ensures var s := IndexOf(cfg, v, txsOf);
      |s.transfers| > 0 && s.transfers[0] == StoredTransfer(at, DecodeAll(cfg.topicID, logs)[0], true) && at in s.blocks
  {
    var blocks := Canon(v, cfg.startBlock);
    forall n | cfg.startBlock <= n <= at ensures txsOf(blocks[n].hash) == if n == at then DecodeAll(cfg.topicID, logs) else [] {
    }
    FirstCollected(txsOf, blocks, cfg.startBlock, at, |v|);
  }

  lemma {:induction false} RecoveryRemoves(cfg: Config, s: State, w: View, envs: seq<Env>, i: nat)
    requires Indexed(cfg.startBlock, s) && Linked(w) && AllServe(envs, w) && |envs| == |Divergent(s.blocks, w)|
    requires Within(s.blocks, w)
    requires i < |s.transfers| && s.transfers[i].confirmed
    requires s.transfers[i].block in s.blocks && s.blocks[s.transfers[i].block].hash != HashOf(w[s.transfers[i].block])
    ensures !KeepsConfirmed(s, Run(cfg, s, envs))
    ensures forall x :: x in Run(cfg, s, envs).transfers ==> x.block < s.transfers[i].block
  {
    var fork := RecoveryCutsAtFork(cfg, s, w, envs);
    RollbacksSpareConfirmedIff(cfg, s, w, envs);
    assert !IsCanonical(s.blocks, w, s.transfers[i].block);
    BelowMembers(s.transfers, fork);
  }

  /** For every configuration and every transfer there is a run that removes that transfer
      after it was confirmed: the node is on a chain `v`, and then on a chain `w` of the same
      length that shares the start block and all before it with `v` and replaces the blocks
      above, one more than the confirmation depth. */
  lemma {:induction false} ConfirmedCanBeLost(cfg: Config, logs: seq<Log>) returns (v: View, w: View, first: Env, later: seq<Env>)
    requires |DecodeAll(cfg.topicID, logs)| > 0
    ensures var at := cfg.startBlock + 1;
      Linked(v) && Linked(w) && |v| == |w| == at + 1 + cfg.confirmations && v[..at] == w[..at]
    ensures ServesHeaders(first, v) && NeverFails(first, v) && AllServe(later, w)
    ensures var s, at := Run(cfg, Empty(), [first]), cfg.startBlock + 1;
      && |s.transfers| > 0 && s.transfers[0] == StoredTransfer(at, DecodeAll(cfg.topicID, logs)[0], true)
      && !KeepsConfirmed(s, Run(cfg, s, later))
      && (forall x :: x in Run(cfg, s, later).transfers ==> x.block < at)
  {
    v, w := Forks(cfg);
    first, later := LostTo(cfg, v, w, cfg.startBlock + 1, logs);
  }

  /** Two chains that share the start block and all before it, and nothing above. */
  lemma {:induction false} Forks(cfg: Config) returns (v: View, w: View)
    ensures var at := cfg.startBlock + 1;
      && Linked(v) && Linked(w) && |v| == |w| == at + 1 + cfg.confirmations
      && v[..at] == w[..at] && v[at] != w[at]
  {
    var at := cfg.startBlock + 1;
    var len := at + 1 + cfg.confirmations;
    v, w := Branch(len, at, 0), Branch(len, at, 1);
    BranchIsLinked(len, at, 0);
    BranchIsLinked(len, at, 1);
    BranchesShare(len, at, 0, 1);
    assert v[at].extra == [0] && w[at].extra == [1];
  }

  lemma {:induction false} LostTo(cfg: Config, v: View, w: View, at: nat, logs: seq<Log>) returns (first: Env, later: seq<Env>)
    requires Linked(v) && Linked(w) && |v| == |w| && cfg.startBlock <= at
    requires at + cfg.confirmations < |v| && v[at] != w[at] && |DecodeAll(cfg.topicID, logs)| > 0
    ensures ServesHeaders(first, v) && NeverFails(first, v) && AllServe(later, w)
    ensures var s := Run(cfg, Empty(), [first]);
      && |s.transfers| > 0 && s.transfers[0] == StoredTransfer(at, DecodeAll(cfg.topicID, logs)[0], true)
      && !KeepsConfirmed(s, Run(cfg, s, later))
      && (forall x :: x in Run(cfg, s, later).transfers ==> x.block < at)
  {
    var txsOf := TxsOfBoth(cfg, v, w, at, logs);
    first := Node(v, at, logs);
    NodeServes(v, at, logs);
    TxsOfBothAreOnlyAt(cfg, v, w, at, logs);
    FirstSync(cfg, txsOf, v, at, logs);
    FirstIsConfirmed(cfg, txsOf, v, at, logs);
    RunKeepsIndexed(cfg, Empty(), [first]);
    later := PollOn(w, at, [], |Divergent(Canon(v, cfg.startBlock), w)|);
    RecoveryRemoves(cfg, Run(cfg, Empty(), [first]), w, later, 0);
  }

  /** `k` Syncs against a node on `w`. */
  lemma {:induction false} PollOn(w: View, at: nat, logs: seq<Log>, k: nat) returns (later: seq<Env>)
    requires Linked(w)
    ensures |later| == k && AllServe(later, w) && forall i :: 0 <= i < k ==> later[i] == Node(w, at, logs)
  {
    later := seq(k, _ => Node(w, at, logs));
    NodeServes(w, at, logs);
    forall i | 0 <= i < k ensures ServesAt(later, w, i) {
    }
  }

  // Why "at every point": a transfer may come back with another block.

  lemma {:induction false} CollectSameTxs(txsOf: Hash -> seq<Transfer>, xs: map<nat, Block>, ys: map<nat, Block>, a: nat, b: nat)
    requires forall n :: a <= n < b ==> n in xs && n in ys && txsOf(xs[n].hash) == txsOf(ys[n].hash)
    ensures Collect(txsOf, xs, a, b) == Collect(txsOf, ys, a, b)
  {
    if a < b {
      CollectSameTxs(txsOf, xs, ys, a, b - 1);
    }
  }

  /** Chains of one length with the same logs at the same heights have the same transfers. */
  lemma {:induction false} SameIndexedTransfers(cfg: Config, txsOf: Hash -> seq<Transfer>, v: View, w: View, at: nat, logs: seq<Log>)
    requires 0 < |v| == |w| && OnlyAt(cfg, txsOf, v, at, logs) && OnlyAt(cfg, txsOf, w, at, logs)
    ensures IndexOf(cfg, v, txsOf).transfers == IndexOf(cfg, w, txsOf).transfers
  {
    var xs, ys := Canon(v, cfg.startBlock), Canon(w, cfg.startBlock);
    forall n | cfg.startBlock <= n < |v| ensures txsOf(xs[n].hash) == txsOf(ys[n].hash) {
      assert xs[n].hash == HashOf(v[n]) && ys[n].hash == HashOf(w[n]);
    }
    CollectSameTxs(txsOf, xs, ys, cfg.startBlock, |v|);
  }

  /** Polling a node on `w` long enough, after one on `v`, gives the index of `w`. */
  lemma {:induction false} RecoveredIsIndexOf(cfg: Config, txsOf: Hash -> seq<Transfer>, v: View, w: View, at: nat, logs: seq<Log>, later: seq<Env>)
    requires Linked(v) && Linked(w) && |v| == |w| && OnlyAt(cfg, txsOf, v, at, logs) && OnlyAt(cfg, txsOf, w, at, logs)
    requires AllServe(later, w) && forall i :: 0 <= i < |later| ==> later[i] == Node(w, at, logs)
    requires |later| == |Divergent(Canon(v, cfg.startBlock), w)| + 1
    ensures Run(cfg, Run(cfg, Empty(), [Node(v, at, logs)]), later) == IndexOf(cfg, w, txsOf)
  {
    var first, k := Node(v, at, logs), |later| - 1;
    NodeIsSeen(cfg, txsOf, w, at, logs);
    RunAppend(cfg, Empty(), [first], later[..k]);
    FirstSync(cfg, txsOf, v, at, logs);
    RunKeepsIndexed(cfg, Empty(), [first]);
    LastCompletes(cfg, Run(cfg, Empty(), [first]), w, later);
    var vs := BothSeen(cfg, txsOf, v, w, at, logs, later[..k]);
    IndexIsFunctionOfChain(cfg, [first] + later[..k], vs, txsOf, later[k], w);
  }

  lemma {:induction false} BothSeen(cfg: Config, txsOf: Hash -> seq<Transfer>, v: View, w: View, at: nat, logs: seq<Log>, later: seq<Env>) returns (vs: seq<View>)
    requires Linked(v) && Linked(w) && |v| == |w| && OnlyAt(cfg, txsOf, v, at, logs) && OnlyAt(cfg, txsOf, w, at, logs)
    requires forall i :: 0 <= i < |later| ==> later[i] == Node(w, at, logs)
    ensures AllSee(cfg, [Node(v, at, logs)] + later, vs, txsOf) && forall i :: 0 <= i < |vs| ==> |vs[i]| == |w|
  {
    NodeIsSeen(cfg, txsOf, v, at, logs);
    NodeIsSeen(cfg, txsOf, w, at, logs);
    vs := [v] + seq(|later|, _ => w);
  }

  lemma {:induction false} LastCompletes(cfg: Config, s: State, w: View, later: seq<Env>)
    requires Indexed(cfg.startBlock, s) && Linked(w) && Within(s.blocks, w)
    requires AllServe(later, w) && |later| == |Divergent(s.blocks, w)| + 1
    ensures var k := |later| - 1; Sync(cfg, Run(cfg, s, later[..k]).blocks, later[k]).outcome == Completed
  {
    var k := |later| - 1;
    AllServePrefix(later, w, k);
    assert ServesAt(later, w, k);
    SettledCompletes(cfg, s, w, later[..k], later[k]);
  }

  lemma {:induction false} SettledCompletes(cfg: Config, s: State, w: View, envs: seq<Env>, env: Env)
    requires Indexed(cfg.startBlock, s) && Linked(w) && AllServe(envs, w) && Within(s.blocks, w)
    requires |envs| == |Divergent(s.blocks, w)| && ServesHeaders(env, w) && NeverFails(env, w)
    ensures Sync(cfg, Run(cfg, s, envs).blocks, env).outcome == Completed
  {
    var t := Run(cfg, s, envs);
    AllServeIsFaultFree(envs, w);
    NothingDivergesAfter(cfg, s, w, envs);
    RunSparesCanonical(cfg, s, w, envs);
    RunKeepsIndexed(cfg, s, envs);
    var m := SyncOnView(cfg, t, env, w, Heard(cfg, env));
    assert t.blocks != map[] ==> MaxKey(t.blocks.Keys) in t.blocks && MaxKey(t.blocks.Keys) !in Divergent(t.blocks, w);
  }

  /** For every configuration and every transfer there is a recovery from a reorg after which
      the confirmed transfer is in the store, in place and confirmed, although the chain no
      longer has the block it was confirmed in: the new chain has it at the same height. */
  lemma {:induction false} ReincludedIsKept(cfg: Config, logs: seq<Log>) returns (w: View, first: Env, later: seq<Env>)
    requires |DecodeAll(cfg.topicID, logs)| > 0
    ensures var s := Run(cfg, Empty(), [first]);
      && Indexed(cfg.startBlock, s) && Linked(w) && AllServe(later, w) && Within(s.blocks, w)
      && |later| > |Divergent(s.blocks, w)|
      && KeepsConfirmed(s, Run(cfg, s, later)) && !ConfirmedIsCanonical(s, w)
  {
    var v: View;
    v, w := Forks(cfg);
    var at := cfg.startBlock + 1;
    var txsOf := TxsOfBoth(cfg, v, w, at, logs);
    TxsOfBothAreOnlyAt(cfg, v, w, at, logs);
    first := Node(v, at, logs);
    later := PollOn(w, at, logs, |Divergent(Canon(v, cfg.startBlock), w)| + 1);
    RunKeepsIndexed(cfg, Empty(), [first]);
    FirstSync(cfg, txsOf, v, at, logs);
    RecoveredIsIndexOf(cfg, txsOf, v, w, at, logs, later);
    SameIndexedTransfers(cfg, txsOf, v, w, at, logs);
    FirstIsConfirmed(cfg, txsOf, v, at, logs);
    assert !IsCanonical(Canon(v, cfg.startBlock), w, at);
  }
}
