/** What one Sync does, told from the answers alone: how far the loop comes, what stops it,
    what it has written by then, and how it ends. */
module SyncOutcome {
  import opened Chain
  import opened Erc20
  import opened StoreModel
  import opened SyncSpec
  import opened Events
  import opened Seqs

  /** Height `n` is not looked at: the call is cancelled there, or the header or the stored
      block below cannot be read. */
  ghost predicate Unread(env: Env, n: nat) {
    env.cancelled(n) || env.header(n).None? || (n > 0 && env.storeFails(BlockByNumberCall(n - 1)))
  }

  /** The header answered for `n` does not build on the header answered for the height below. */
  ghost predicate Unlinked(env: Env, n: nat) {
    && n > 0 && env.header(n).Some? && env.header(n - 1).Some?
    && env.header(n).value.parentHash != HashOf(env.header(n - 1).value)
  }

  /** The logs of `n` cannot be read, or the block cannot be saved. */
  ghost predicate Unsaved(env: Env, n: nat) {
    env.logs(n).None? || env.storeFails(SaveBlockCall(n))
  }

  /** Height `n` is indexed. `checked` says that a block is stored below it. */
  ghost predicate Passes(env: Env, n: nat, checked: bool) {
    !Unread(env, n) && !(checked && Unlinked(env, n)) && !Unsaved(env, n)
  }

  /** The write that indexes `n`: every field of the block, its transfers, and whether it is
      deep enough under the head. */
  ghost predicate Indexes(cfg: Config, env: Env, head: nat, n: nat, a: Action) {
    && a.Save? && env.header(n).Some? && env.logs(n).Some?
    && a.block.number == n && a.block.hash == Digest(env.header(n).value)
    && a.block.parentHash == env.header(n).value.parentHash && a.block.time == env.header(n).value.time
    && a.transfers == DecodeAll(cfg.topicID, env.logs(n).value)
    && (a.confirmed <==> n + cfg.confirmations <= head)
  }

  /** How Sync rolls back height `n`. */
  ghost predicate RollsBack(env: Env, n: nat, rest: seq<Action>, outcome: Outcome) {
    if env.storeFails(DeleteFromCall(n)) then rest == [] && outcome == Failed
    else rest == [Delete(n)] && outcome == RolledBack
  }

  /** How Sync promotes at the end of the loop. */
  ghost predicate Promotes(cfg: Config, env: Env, head: nat, rest: seq<Action>, outcome: Outcome) {
    if head < cfg.confirmations then rest == [] && outcome == Completed
    else if env.storeFails(ConfirmThroughCall(head - cfg.confirmations)) then rest == [] && outcome == Failed
    else rest == [Confirm(head - cfg.confirmations)] && outcome == Completed
  }

  /** What follows the saves when the loop has come to `k`. */
  ghost predicate Ends(cfg: Config, env: Env, head: nat, k: nat, checked: bool, rest: seq<Action>, outcome: Outcome) {
    if k > head then Promotes(cfg, env, head, rest, outcome)
    else if !Unread(env, k) && checked && Unlinked(env, k) then k > 0 && RollsBack(env, k - 1, rest, outcome)
    else rest == [] && outcome == Failed && !Passes(env, k, checked)
  }

  /** Round `i` of the loop from `n`: its height passes, and its write indexes it. */
  ghost predicate Round(cfg: Config, env: Env, head: nat, n: nat, checked: bool, actions: seq<Action>, i: nat)
    requires i < |actions|
  {
    n + i <= head && Passes(env, n + i, checked || i > 0) && Indexes(cfg, env, head, n + i, actions[i])
  }

  /** The loop from `n` comes to `k`: it indexes exactly the heights [n, k), each of which
      passes, and then ends as `k` says. */
  ghost predicate Loops(cfg: Config, env: Env, head: nat, n: nat, checked: bool, k: nat, trace: Trace) {
    && n <= k <= n + |trace.actions|
    && (forall i :: 0 <= i < k - n ==> Round(cfg, env, head, n, checked, trace.actions, i))
    && Ends(cfg, env, head, k, checked || k > n, trace.actions[k - n..], trace.outcome)
  }

  /** Where the loop stands: nothing is stored below the first height, or the block that is
      stored below has the hash of the header answered for it. */
  ghost predicate Stands(blocks: map<nat, Block>, env: Env, n: nat, checked: bool) {
    if checked then n > 0 && n - 1 in blocks && env.header(n - 1).Some? && blocks[n - 1].hash == HashOf(env.header(n - 1).value)
    else n == 0 || n - 1 !in blocks
  }

  lemma {:induction false} LoopStops(cfg: Config, blocks: map<nat, Block>, env: Env, head: nat, n: nat, checked: bool)
    requires Stands(blocks, env, n, checked) && (n > head || !Passes(env, n, checked))
    ensures Loops(cfg, env, head, n, checked, n, Extend(cfg, blocks, env, head, n))
  {
    var trace := Extend(cfg, blocks, env, head, n);
    assert trace.actions[0..] == trace.actions;
  }

  lemma {:induction false} LoopGoesOn(cfg: Config, blocks: map<nat, Block>, env: Env, head: nat, n: nat, checked: bool)
    requires Stands(blocks, env, n, checked) && n <= head && Passes(env, n, checked)
    ensures var b := BlockOf(n, env.header(n).value); var trace := Extend(cfg, blocks, env, head, n);
      var rest := Extend(cfg, blocks[n := b], env, head, n + 1);
      && Stands(blocks[n := b], env, n + 1, true) && trace.outcome == rest.outcome
      && |trace.actions| == 1 + |rest.actions| && trace.actions[1..] == rest.actions
      && Indexes(cfg, env, head, n, trace.actions[0])
  {
  }

  lemma {:induction false} LoopsCons(cfg: Config, env: Env, head: nat, n: nat, checked: bool, k: nat, trace: Trace, rest: Trace)
    requires n <= head && Passes(env, n, checked) && Loops(cfg, env, head, n + 1, true, k, rest)
    requires trace.outcome == rest.outcome && |trace.actions| == 1 + |rest.actions| && trace.actions[1..] == rest.actions
    requires Indexes(cfg, env, head, n, trace.actions[0])
    ensures Loops(cfg, env, head, n, checked, k, trace)
  {
    forall i | 0 <= i < k - n ensures Round(cfg, env, head, n, checked, trace.actions, i) {
      if i > 0 {
        assert Round(cfg, env, head, n + 1, true, rest.actions, i - 1);
        assert trace.actions[i] == rest.actions[i - 1];
      }
    }
    assert trace.actions[k - n..] == rest.actions[k - (n + 1)..];
  }

  lemma {:induction false} ExtendLoops(cfg: Config, blocks: map<nat, Block>, env: Env, head: nat, n: nat, checked: bool) returns (k: nat)
    requires Stands(blocks, env, n, checked)
    ensures Loops(cfg, env, head, n, checked, k, Extend(cfg, blocks, env, head, n))
    decreases head + 1 - n
  {
    if n > head || !Passes(env, n, checked) {
      k := n;
      LoopStops(cfg, blocks, env, head, n, checked);
    } else {
      var more := blocks[n := BlockOf(n, env.header(n).value)];
      LoopGoesOn(cfg, blocks, env, head, n, checked);
      k := ExtendLoops(cfg, more, env, head, n + 1, true);
      LoopsCons(cfg, env, head, n, checked, k, Extend(cfg, blocks, env, head, n), Extend(cfg, more, env, head, n + 1));
    }
  }

  /** Blocks are stored under their own numbers, as SaveBlock stores them. */
  ghost predicate Keyed(blocks: map<nat, Block>) {
    forall n :: n in blocks ==> blocks[n].number == n
  }

  /** The highest stored height. */
  ghost function Tip(blocks: map<nat, Block>): (n: nat)
    requires blocks != map[]
    ensures n in blocks && forall m :: m in blocks ==> m <= n
  {
    MaxKey(blocks.Keys)
  }

  /** The height the loop starts from. */
  ghost function First(cfg: Config, blocks: map<nat, Block>): nat {
    if blocks == map[] then cfg.startBlock else Tip(blocks) + 1
  }

  /** Nothing can be done: no head, no access to the store, or no header for the tip. */
  ghost predicate Blind(blocks: map<nat, Block>, env: Env) {
    env.head.None? || env.storeFails(LastBlockCall) || (blocks != map[] && env.header(Tip(blocks)).None?)
  }

  /** The header answered for the tip is another one than was indexed. */
  ghost predicate TipReplaced(blocks: map<nat, Block>, env: Env) {
    && blocks != map[] && env.header(Tip(blocks)).Some?
    && HashOf(env.header(Tip(blocks)).value) != blocks[Tip(blocks)].hash
  }

  /** For every answer the backend and the store may give, Sync does one of three things: it
      can do nothing and fails; it rolls back a replaced tip; or it indexes height after
      height up to some `k` and ends as `k` says. */
  lemma {:induction false} SyncIsExactly(cfg: Config, blocks: map<nat, Block>, env: Env) returns (k: nat)
    requires Keyed(blocks)
    ensures var trace := Sync(cfg, blocks, env);
      if Blind(blocks, env) then trace == Trace([], Failed)
      else if TipReplaced(blocks, env) then RollsBack(env, Tip(blocks), trace.actions, trace.outcome)
      else Loops(cfg, env, env.head.value.number, First(cfg, blocks), blocks != map[], k, trace)
  {
    k := 0;
    if !Blind(blocks, env) && !TipReplaced(blocks, env) {
      var n := First(cfg, blocks);
      assert Stands(blocks, env, n, blocks != map[]);
      k := ExtendLoops(cfg, blocks, env, env.head.value.number, n, blocks != map[]);
    }
  }

  // Three consequences.

  /** No call that a Sync makes fails, and nothing is cancelled. */
  ghost predicate Faultless(cfg: Config, blocks: map<nat, Block>, env: Env) {
    && env.head.Some? && (blocks != map[] ==> env.header(Tip(blocks)).Some?)
    && (forall n :: First(cfg, blocks) <= n <= env.head.value.number ==>
          !env.cancelled(n) && env.header(n).Some? && env.logs(n).Some?)
    && (forall c :: !env.storeFails(c))
  }

  /** Height `n` of the loop does not build on what is stored below it. */
  ghost predicate Breaks(cfg: Config, blocks: map<nat, Block>, env: Env, n: nat)
    requires env.head.Some?
  {
    First(cfg, blocks) <= n <= env.head.value.number && (blocks != map[] || n > First(cfg, blocks)) && Unlinked(env, n)
  }

  ghost predicate BreaksFirst(cfg: Config, blocks: map<nat, Block>, env: Env, n: nat)
    requires env.head.Some?
  {
    Breaks(cfg, blocks, env, n) && forall m: nat :: m < n ==> !Breaks(cfg, blocks, env, m)
  }

  /** The last write deletes from the height below `n`. */
  ghost predicate DeletesBelow(actions: seq<Action>, n: nat) {
    n > 0 && actions != [] && actions[|actions| - 1] == Delete(n - 1)
  }

  lemma {:induction false} NoBreakBefore(cfg: Config, blocks: map<nat, Block>, env: Env, k: nat, trace: Trace, n: nat)
    requires env.head.Some? && Loops(cfg, env, env.head.value.number, First(cfg, blocks), blocks != map[], k, trace) && n < k
    ensures !Breaks(cfg, blocks, env, n)
  {
    var first := First(cfg, blocks);
    if first <= n {
      assert Round(cfg, env, env.head.value.number, first, blocks != map[], trace.actions, n - first);
    }
  }

  lemma {:induction false} FaultlessEnd(cfg: Config, blocks: map<nat, Block>, env: Env, k: nat, rest: seq<Action>, outcome: Outcome)
    requires Faultless(cfg, blocks, env) && First(cfg, blocks) <= k
    requires Ends(cfg, env, env.head.value.number, k, blocks != map[] || k > First(cfg, blocks), rest, outcome)
    ensures k > env.head.value.number ==> outcome == Completed
    ensures k <= env.head.value.number ==>
      Breaks(cfg, blocks, env, k) && outcome == RolledBack && k > 0 && rest == [Delete(k - 1)]
  {
    if k <= env.head.value.number {
      assert !env.cancelled(k) && env.header(k).Some? && env.logs(k).Some?;
      assert !Unread(env, k) && !Unsaved(env, k);
    }
  }

  lemma {:induction false} FaultlessLoop(cfg: Config, blocks: map<nat, Block>, env: Env, k: nat, trace: Trace)
    requires Faultless(cfg, blocks, env)
    requires Loops(cfg, env, env.head.value.number, First(cfg, blocks), blocks != map[], k, trace)
    ensures k > env.head.value.number ==> trace.outcome == Completed
    ensures k <= env.head.value.number ==>
      Breaks(cfg, blocks, env, k) && trace.outcome == RolledBack && DeletesBelow(trace.actions, k)
  {
    var rest := trace.actions[k - First(cfg, blocks)..];
    FaultlessEnd(cfg, blocks, env, k, rest, trace.outcome);
    LastOfSuffix(trace.actions, k - First(cfg, blocks));
  }

  lemma {:induction false} LastOfSuffix(actions: seq<Action>, i: nat)
    requires i <= |actions|
    ensures i < |actions| ==> actions[|actions| - 1] == actions[i..][|actions| - i - 1]
  {
  }

  /** Without faults a Sync never fails. It rolls back exactly when the header answered for the
      tip is another one, or that for some height of the loop does not build on the one below;
      its last write then deletes from the tip, or from below the first such height. */
  lemma {:induction false} RolledBackIff(cfg: Config, blocks: map<nat, Block>, env: Env)
    requires Keyed(blocks) && Faultless(cfg, blocks, env)
    ensures var trace := Sync(cfg, blocks, env);
      && trace.outcome != Failed
      && (trace.outcome == RolledBack <==> TipReplaced(blocks, env) || exists n: nat :: Breaks(cfg, blocks, env, n))
      && (TipReplaced(blocks, env) ==> trace.actions == [Delete(Tip(blocks))])
      && (forall n: nat :: !TipReplaced(blocks, env) && BreaksFirst(cfg, blocks, env, n) ==> DeletesBelow(trace.actions, n))
  {
    var k := SyncIsExactly(cfg, blocks, env);
    if !TipReplaced(blocks, env) {
      FaultlessLoop(cfg, blocks, env, k, Sync(cfg, blocks, env));
      forall n: nat | n < k ensures !Breaks(cfg, blocks, env, n) {
        NoBreakBefore(cfg, blocks, env, k, Sync(cfg, blocks, env), n);
      }
      forall n: nat | BreaksFirst(cfg, blocks, env, n) ensures n == k && k <= env.head.value.number {
        assert n >= k && Breaks(cfg, blocks, env, n);
      }
    }
  }

  /** A Sync that is cancelled at a height of its loop saves neither that height nor any above
      it, and does not complete. */
  lemma {:induction false} CancelledStops(cfg: Config, blocks: map<nat, Block>, env: Env, n: nat)
    requires Keyed(blocks) && env.head.Some? && First(cfg, blocks) <= n <= env.head.value.number && env.cancelled(n)
    ensures var trace := Sync(cfg, blocks, env);
      trace.outcome != Completed && forall i :: 0 <= i < |trace.actions| && trace.actions[i].Save? ==> trace.actions[i].block.number < n
  {
    var k := SyncIsExactly(cfg, blocks, env);
    if !Blind(blocks, env) && !TipReplaced(blocks, env) {
      LoopCancelled(cfg, env, env.head.value.number, First(cfg, blocks), blocks != map[], k, Sync(cfg, blocks, env), n);
    }
  }

  lemma {:induction false} NoSavesAtEnd(cfg: Config, env: Env, head: nat, k: nat, checked: bool, rest: seq<Action>, outcome: Outcome)
    requires Ends(cfg, env, head, k, checked, rest, outcome)
    ensures forall j :: 0 <= j < |rest| ==> !rest[j].Save?
    ensures k <= head ==> outcome != Completed
  {
  }

  /** A save among the writes of the loop is the write of its round. */
  lemma {:induction false} SaveIsRound(cfg: Config, env: Env, head: nat, first: nat, checked: bool, k: nat, trace: Trace, i: nat)
    requires Loops(cfg, env, head, first, checked, k, trace) && i < |trace.actions|
    ensures trace.actions[i].Save? ==> i < k - first && Round(cfg, env, head, first, checked, trace.actions, i)
  {
    var rest := trace.actions[k - first..];
    NoSavesAtEnd(cfg, env, head, k, checked || k > first, rest, trace.outcome);
    if i >= k - first {
      assert trace.actions[i] == rest[i - (k - first)];
    }
  }

  lemma {:induction false} StopsBy(cfg: Config, env: Env, head: nat, first: nat, checked: bool, k: nat, trace: Trace, n: nat)
    requires Loops(cfg, env, head, first, checked, k, trace) && first <= n && env.cancelled(n)
    ensures k <= n
  {
    forall m | first <= m < k ensures !env.cancelled(m) {
      assert Round(cfg, env, head, first, checked, trace.actions, m - first);
    }
  }

  lemma {:induction false} LoopCancelled(cfg: Config, env: Env, head: nat, first: nat, checked: bool, k: nat, trace: Trace, n: nat)
    requires Loops(cfg, env, head, first, checked, k, trace) && first <= n <= head && env.cancelled(n)
    ensures trace.outcome != Completed
    ensures forall i :: 0 <= i < |trace.actions| && trace.actions[i].Save? ==> trace.actions[i].block.number < n
  {
    StopsBy(cfg, env, head, first, checked, k, trace, n);
    NoSavesAtEnd(cfg, env, head, k, checked || k > first, trace.actions[k - first..], trace.outcome);
    forall i | 0 <= i < |trace.actions| && trace.actions[i].Save? ensures trace.actions[i].block.number < n {
      SaveIsRound(cfg, env, head, first, checked, k, trace, i);
    }
  }

  // The flag of published events.

  /** A save's flag says whether its height is deep enough under the head. */
  ghost predicate Honest(cfg: Config, head: nat, a: Action) {
    a.Save? ==> (a.confirmed <==> a.block.number + cfg.confirmations <= head)
  }

  lemma {:induction false} SyncIsHonest(cfg: Config, blocks: map<nat, Block>, env: Env)
    requires Keyed(blocks) && env.head.Some?
    ensures forall i :: 0 <= i < |Sync(cfg, blocks, env).actions| ==> Honest(cfg, env.head.value.number, Sync(cfg, blocks, env).actions[i])
  {
    var k := SyncIsExactly(cfg, blocks, env);
    var trace, first, head := Sync(cfg, blocks, env), First(cfg, blocks), env.head.value.number;
    if !Blind(blocks, env) && !TipReplaced(blocks, env) {
      forall i | 0 <= i < |trace.actions| ensures Honest(cfg, head, trace.actions[i]) {
        if trace.actions[i].Save? {
          SaveIsRound(cfg, env, head, first, blocks != map[], k, trace, i);
        }
      }
    }
  }

  /** The event's flag says whether its height is deep enough under the head. */
  ghost predicate TellsDepth(cfg: Config, head: nat, e: Event) {
    match e
    case BlockEvent(n, _, _, c) => c <==> n + cfg.confirmations <= head
    case TransferEvent(n, _, _, _, _, _, c) => c <==> n + cfg.confirmations <= head
    case ReorgEvent(_) => true
  }

  lemma {:induction false} HonestWritesTellDepth(cfg: Config, head: nat, actions: seq<Action>)
    requires forall i :: 0 <= i < |actions| ==> Honest(cfg, head, actions[i])
    ensures forall i :: 0 <= i < |PublishAll(actions)| ==> TellsDepth(cfg, head, PublishAll(actions)[i])
  {
    if actions != [] {
      var front, last := PublishAll(actions[..|actions| - 1]), Publish(actions[|actions| - 1]);
      HonestWritesTellDepth(cfg, head, actions[..|actions| - 1]);
      var all := front + last;
      forall i | 0 <= i < |all| ensures TellsDepth(cfg, head, all[i]) {
        ConcatAt(front, last, i);
      }
    }
  }

  /** For every answer, each block event and each transfer event that a Sync publishes is marked
      confirmed exactly when its height is at least `confirmations` below the head. */
  lemma {:induction false} EventsTellDepth(cfg: Config, blocks: map<nat, Block>, env: Env)
    requires Keyed(blocks) && env.head.Some?
    ensures var es := PublishAll(Sync(cfg, blocks, env).actions);
      forall i :: 0 <= i < |es| ==> TellsDepth(cfg, env.head.value.number, es[i])
  {
    SyncIsHonest(cfg, blocks, env);
    HonestWritesTellDepth(cfg, env.head.value.number, Sync(cfg, blocks, env).actions);
  }
}
