/** The events Sync publishes, and what a consumer that has received them all knows. */
module Events {
  import opened Bytes
  import opened Seqs
  import opened Chain
  import opened Erc20
  import opened StoreModel
  import opened SyncSpec
  import opened ChainInvariant

  /** The payloads of chain.block, chain.transfer and chain.reorg. A transfer event does
      not carry the log index. */
  datatype Event =
    | BlockEvent(number: nat, hash: Hash, transfers: nat, confirmed: bool)
    | TransferEvent(block: nat, token: Address, from: Address, to: Address, value: nat,
                    txHash: Word, confirmed: bool)
    | ReorgEvent(fromBlock: nat)

  function TransferPayload(n: nat, t: Transfer, confirmed: bool): Event {
    TransferEvent(n, t.token, t.from, t.to, t.value, t.txHash, confirmed)
  }

  function TransferPayloads(n: nat, ts: seq<Transfer>, confirmed: bool): seq<Event> {
    seq(|ts|, i requires 0 <= i < |ts| => TransferPayload(n, ts[i], confirmed))
  }

  function Publish(a: Action): seq<Event> {
    match a
    case Save(b, ts, c) => [BlockEvent(b.number, b.hash, |ts|, c)] + TransferPayloads(b.number, ts, c)
    case Delete(n) => [ReorgEvent(n)]
    case Confirm(_) => []
  }

  function PublishAll(actions: seq<Action>): seq<Event> {
    FlatMap(Publish, actions)
  }

  /** A consumer's copy of the index, kept from events alone. */
  datatype Replica = Replica(hashes: map<nat, Hash>, transfers: seq<Event>)

  /** The copy of a consumer that has seen nothing. */
  function NoEvents(): Replica {
    Replica(map[], [])
  }

  function EventsBelow(es: seq<Event>, n: nat): seq<Event> {
    if es == [] then []
    else
      var front, e := EventsBelow(es[..|es| - 1], n), es[|es| - 1];
      if e.TransferEvent? && e.block < n then front + [e] else front
  }

  function Consume(r: Replica, e: Event): Replica {
    match e
    case BlockEvent(n, h, _, _) => r.(hashes := r.hashes[n := h])
    case TransferEvent(_, _, _, _, _, _, _) => r.(transfers := r.transfers + [e])
    case ReorgEvent(n) =>
      Replica(map k | k in r.hashes && k < n :: r.hashes[k], EventsBelow(r.transfers, n))
  }

  function Replay(r: Replica, es: seq<Event>): Replica {
    if es == [] then r
    else Consume(Replay(r, es[..|es| - 1]), es[|es| - 1])
  }

  lemma {:induction false} ReplayConcat(r: Replica, xs: seq<Event>, ys: seq<Event>)
    ensures Replay(r, xs + ys) == Replay(Replay(r, xs), ys)
    decreases |ys|
  {
    if ys == [] {
      assert xs + ys == xs;
    } else {
      var front := ys[..|ys| - 1];
      ReplayConcat(r, xs, front);
      assert (xs + ys)[..|xs + ys| - 1] == xs + front;
    }
  }

  /** The event carries the stored transfer, and is confirmed only if the store says so. */
  predicate Carries(e: Event, t: StoredTransfer) {
    && e.TransferEvent? && e.block == t.block && e.token == t.transfer.token
    && e.from == t.transfer.from && e.to == t.transfer.to
    && e.value == t.transfer.value && e.txHash == t.transfer.txHash
    && (e.confirmed ==> t.confirmed)
  }

  /** The replica holds the hash of every stored block, and every stored transfer in order. */
  ghost predicate Mirrors(r: Replica, s: State) {
    && r.hashes == (map n | n in s.blocks :: s.blocks[n].hash)
    && |r.transfers| == |s.transfers|
    && (forall i :: 0 <= i < |s.transfers| ==> Carries(r.transfers[i], s.transfers[i]))
  }

  lemma {:induction false} BelowCarries(es: seq<Event>, ts: seq<StoredTransfer>, n: nat)
    requires |es| == |ts| && forall i :: 0 <= i < |es| ==> Carries(es[i], ts[i])
    ensures |EventsBelow(es, n)| == |Below(ts, n)|
    ensures forall i :: 0 <= i < |Below(ts, n)| ==> Carries(EventsBelow(es, n)[i], Below(ts, n)[i])
  {
    if ts != [] {
      BelowCarries(es[..|es| - 1], ts[..|ts| - 1], n);
    }
  }

  lemma {:induction false} ReplayTransfers(r: Replica, es: seq<Event>)
    requires forall i :: 0 <= i < |es| ==> es[i].TransferEvent?
    ensures Replay(r, es) == r.(transfers := r.transfers + es)
  {
    if es != [] {
      ReplayTransfers(r, es[..|es| - 1]);
      assert es == es[..|es| - 1] + [es[|es| - 1]];
    }
  }

  lemma {:induction false} ReplayOne(r: Replica, e: Event)
    ensures Replay(r, [e]) == Consume(r, e)
  {
    assert [e][..0] == [] && Replay(r, []) == r;
  }

  lemma {:induction false} SaveKeepsMirror(r: Replica, s: State, b: Block, ts: seq<Transfer>, c: bool)
    requires Mirrors(r, s)
    ensures Mirrors(Replay(r, Publish(Save(b, ts, c))), Apply(s, Save(b, ts, c)))
  {
    var first, rest := BlockEvent(b.number, b.hash, |ts|, c), TransferPayloads(b.number, ts, c);
    ReplayConcat(r, [first], rest);
    ReplayOne(r, first);
    ReplayTransfers(Consume(r, first), rest);
    AppendCarries(r.transfers, s.transfers, b.number, ts, c);
  }

  lemma {:induction false} AppendCarries(es: seq<Event>, stored: seq<StoredTransfer>, n: nat, ts: seq<Transfer>, c: bool)
    requires |es| == |stored| && forall i :: 0 <= i < |stored| ==> Carries(es[i], stored[i])
    ensures var es', stored' := es + TransferPayloads(n, ts, c), stored + Tag(n, ts, c);
      |es'| == |stored'| && forall i :: 0 <= i < |stored'| ==> Carries(es'[i], stored'[i])
  {
  }

  lemma {:induction false} WriteKeepsMirror(r: Replica, s: State, a: Action)
    requires Mirrors(r, s)
    ensures Mirrors(Replay(r, Publish(a)), Apply(s, a))
  {
    match a
    case Save(b, ts, c) => SaveKeepsMirror(r, s, b, ts, c);
    case Delete(n) =>
      ReplayOne(r, ReorgEvent(n));
      BelowCarries(r.transfers, s.transfers, n);
    case Confirm(_) =>
  }

  lemma {:induction false} WritesKeepMirror(r: Replica, s: State, actions: seq<Action>)
    requires Mirrors(r, s)
    ensures Mirrors(Replay(r, PublishAll(actions)), ApplyAll(s, actions))
  {
    if actions != [] {
      var front, a := actions[..|actions| - 1], actions[|actions| - 1];
      WritesKeepMirror(r, s, front);
      assert actions == front + [a];
      FlatMapSnoc(Publish, front, a);
      ReplayConcat(r, PublishAll(front), Publish(a));
      ApplySnoc(s, front, a);
      WriteKeepsMirror(Replay(r, PublishAll(front)), ApplyAll(s, front), a);
    }
  }

  /** After every run, whatever the backend answered and wherever a Sync gave up, replaying
      the published events rebuilds the store's height-to-hash map and its transfers. */
  lemma {:induction false} ReplayRebuildsStore(cfg: Config, envs: seq<Env>)
    ensures Mirrors(Replay(NoEvents(), PublishAll(RunActions(cfg, Empty(), envs))),
                    Run(cfg, Empty(), envs))
  {
    RunAppliesItsActions(cfg, Empty(), envs);
    WritesKeepMirror(NoEvents(), Empty(), RunActions(cfg, Empty(), envs));
  }

  /** The stream is made of reorg events and of block events, each followed by exactly as many
      transfer events of its block as it announces, with its confirmed flag. */
  ghost predicate Announced(es: seq<Event>)
    decreases |es|
  {
    es == [] ||
    match es[0]
    case ReorgEvent(_) => Announced(es[1..])
    case TransferEvent(_, _, _, _, _, _, _) => false
    case BlockEvent(n, _, k, c) =>
      && k < |es|
      && (forall i :: 0 < i <= k ==> es[i].TransferEvent? && es[i].block == n && es[i].confirmed == c)
      && Announced(es[k + 1..])
  }

  lemma {:induction false} PublishKeepsAnnounced(a: Action, es: seq<Event>)
    requires Announced(es)
    ensures Announced(Publish(a) + es)
  {
    match a
    case Save(b, ts, c) => assert (Publish(a) + es)[|ts| + 1..] == es;
    case Delete(n) => assert (Publish(a) + es)[1..] == es;
    case Confirm(_) => assert Publish(a) + es == es;
  }

  /** Every run publishes such a stream. */
  lemma {:induction false} StreamIsAnnounced(actions: seq<Action>)
    ensures Announced(PublishAll(actions))
    decreases |actions|
  {
    if actions != [] {
      StreamIsAnnounced(actions[1..]);
      assert actions == [actions[0]] + actions[1..];
      FlatMapConcat(Publish, [actions[0]], actions[1..]);
      FlatMapSnoc(Publish, [], actions[0]);
      assert [] + [actions[0]] == [actions[0]] && [] + Publish(actions[0]) == Publish(actions[0]);
      PublishKeepsAnnounced(actions[0], PublishAll(actions[1..]));
    }
  }

  lemma {:induction false} SavesPublishNoReorg(actions: seq<Action>)
    requires forall i :: 0 <= i < |actions| ==> !actions[i].Delete?
    ensures forall i :: 0 <= i < |PublishAll(actions)| ==> !PublishAll(actions)[i].ReorgEvent?
  {
    if actions != [] {
      var front, last := PublishAll(actions[..|actions| - 1]), Publish(actions[|actions| - 1]);
      SavesPublishNoReorg(actions[..|actions| - 1]);
      var all := front + last;
      forall i | 0 <= i < |all| ensures !all[i].ReorgEvent? {
        ConcatAt(front, last, i);
      }
    }
  }

  /** Among the events of disciplined writes, a reorg event comes from the last write. */
  lemma {:induction false} ReorgComesFromLastWrite(start: nat, s: State, actions: seq<Action>, i: nat)
    requires Disciplined(start, s, actions)
    requires i < |PublishAll(actions)| && PublishAll(actions)[i].ReorgEvent?
    ensures i == |PublishAll(actions)| - 1 && actions[|actions| - 1] == Delete(PublishAll(actions)[i].fromBlock)
    ensures PublishAll(actions)[..i] == PublishAll(actions[..|actions| - 1])
  {
    SavesBeforeLast(start, s, actions);
    SavesPublishNoReorg(actions[..|actions| - 1]);
    LastReorg(actions, i);
  }

  lemma {:induction false} LastReorg(actions: seq<Action>, i: nat)
    requires i < |PublishAll(actions)| && PublishAll(actions)[i].ReorgEvent?
    requires var front := PublishAll(actions[..|actions| - 1]); forall j :: 0 <= j < |front| ==> !front[j].ReorgEvent?
    ensures i == |PublishAll(actions)| - 1 && actions[|actions| - 1] == Delete(PublishAll(actions)[i].fromBlock)
    ensures PublishAll(actions)[..i] == PublishAll(actions[..|actions| - 1])
  {
    var front, last := PublishAll(actions[..|actions| - 1]), Publish(actions[|actions| - 1]);
    assert PublishAll(actions) == front + last;
    ConcatAt(front, last, i);
  }

  /** A Sync publishes at most one reorg event, and nothing after it; the event names the
      highest height a replica that saw everything before it holds. */
  lemma {:induction false} ReorgEventIsLast(cfg: Config, envs: seq<Env>, env: Env, i: nat)
    requires i < |PublishAll(Sync(cfg, Run(cfg, Empty(), envs).blocks, env).actions)|
    requires PublishAll(Sync(cfg, Run(cfg, Empty(), envs).blocks, env).actions)[i].ReorgEvent?
    ensures var actions := Sync(cfg, Run(cfg, Empty(), envs).blocks, env).actions;
      var es := PublishAll(actions);
      var seen := Replay(NoEvents(), PublishAll(RunActions(cfg, Empty(), envs)) + es[..i]);
      i == |es| - 1 && seen.hashes != map[] && es[i].fromBlock == MaxKey(seen.hashes.Keys)
  {
    var s := Run(cfg, Empty(), envs);
    var actions := Sync(cfg, s.blocks, env).actions;
    RunKeepsIndexed(cfg, Empty(), envs);
    SyncIsDisciplined(cfg, s, env);
    ReorgComesFromLastWrite(cfg.startBlock, s, actions, i);
    RollbackIsMinimalAndFinal(cfg, envs, env, |actions| - 1);
    ReplayUpTo(cfg, envs, actions[..|actions| - 1]);
  }

  lemma {:induction false} ReplayUpTo(cfg: Config, envs: seq<Env>, writes: seq<Action>)
    ensures Replay(NoEvents(), PublishAll(RunActions(cfg, Empty(), envs)) + PublishAll(writes)).hashes.Keys
         == ApplyAll(Run(cfg, Empty(), envs), writes).blocks.Keys
  {
    var earlier := PublishAll(RunActions(cfg, Empty(), envs));
    ReplayRebuildsStore(cfg, envs);
    WritesKeepMirror(Replay(NoEvents(), earlier), Run(cfg, Empty(), envs), writes);
    ReplayConcat(NoEvents(), earlier, PublishAll(writes));
  }
}
