/** The monitor: Sync drives the store and the event bus. */
module Monitors {
  import opened Options
  import opened Seqs
  import opened Chain
  import opened Erc20
  import opened StoreModel
  import opened Stores
  import opened Events
  import opened SyncSpec
  import opened Refinement

  class Monitor {
    const cfg: Config
    const store: Store
    var bus: seq<Event>

    constructor (cfg: Config, store: Store)
      ensures this.cfg == cfg && this.store == store && bus == []
    {
      this.cfg := cfg;
      this.store := store;
      bus := [];
    }

    method PublishBlock(b: Block, transfers: nat, confirmed: bool)
      requires store.Ready()
      modifies this
      ensures store.Ready() && store.Repr() == old(store.Repr()) && store.Contents() == old(store.Contents())
      ensures bus == old(bus) + [BlockEvent(b.number, b.hash, transfers, confirmed)]
    {
      bus := bus + [BlockEvent(b.number, b.hash, transfers, confirmed)];
    }

    method PublishReorg(from: nat)
      requires store.Ready()
      modifies this
      ensures store.Ready() && store.Repr() == old(store.Repr()) && store.Contents() == old(store.Contents())
      ensures bus == old(bus) + [ReorgEvent(from)]
    {
      bus := bus + [ReorgEvent(from)];
    }

    method PublishTransfers(n: nat, ts: seq<Transfer>, confirmed: bool)
      requires store.Ready()
      modifies this
      ensures store.Ready() && store.Repr() == old(store.Repr()) && store.Contents() == old(store.Contents())
      ensures bus == old(bus) + TransferPayloads(n, ts, confirmed)
    {
      ghost var payloads := TransferPayloads(n, ts, confirmed);
      for i := 0 to |ts|
        invariant store.Ready() && store.Repr() == old(store.Repr()) && store.Contents() == old(store.Contents())
        invariant bus == old(bus) + payloads[..i]
      {
        bus := bus + [TransferPayload(n, ts[i], confirmed)];
        assert payloads[..i + 1] == payloads[..i] + [payloads[i]];
      }
      assert payloads[..|ts|] == payloads;
    }

    method PublishSaved(b: Block, ts: seq<Transfer>, confirmed: bool)
      requires store.Ready()
      modifies this
      ensures store.Ready() && store.Repr() == old(store.Repr()) && store.Contents() == old(store.Contents())
      ensures bus == old(bus) + Publish(Save(b, ts, confirmed))
    {
      PublishBlock(b, |ts|, confirmed);
      PublishTransfers(b.number, ts, confirmed);
      Assoc(old(bus), [BlockEvent(b.number, b.hash, |ts|, confirmed)], TransferPayloads(b.number, ts, confirmed));
    }

    /** What the writes `actions` have done to the store and the bus since `s` and `es`. */
    ghost predicate Performed(s: Contents, es: seq<Event>, actions: seq<Action>)
      reads this, store.Repr()
    {
      && store.Ready()
      && Same(store.Contents(), WriteAll(s, actions))
      && bus == es + PublishAll(actions)
    }

    lemma {:induction false} PerformOne(s: Contents, es: seq<Event>, done: seq<Action>, a: Action,
                                        before: Contents, after: Contents, published: seq<Event>)
      requires Same(before, WriteAll(s, done)) && after == Write(before, a)
      requires published == es + PublishAll(done) + Publish(a)
      ensures Same(after, WriteAll(s, done + [a])) && published == es + PublishAll(done + [a])
    {
      WriteKeepsSame(before, WriteAll(s, done), a);
      WriteSnoc(s, done, a);
      FlatMapSnoc(Publish, done, a);
      Assoc(es, PublishAll(done), Publish(a));
    }

    method RollBack(from: nat, env: Env, ghost s: Contents, ghost es: seq<Event>, ghost done: seq<Action>)
      returns (outcome: Outcome)
      requires Performed(s, es, done)
      modifies this, store.Repr()
      ensures store.Repr() == old(store.Repr())
      ensures outcome == Rollback(env, from).outcome
      ensures Performed(s, es, done + Rollback(env, from).actions)
    {
      ghost var before := store.Contents();
      var ok := store.DeleteFrom(from, env.storeFails(DeleteFromCall(from)));
      if !ok {
        assert done + [] == done;
        return Failed;
      }
      PublishReorg(from);
      PerformOne(s, es, done, Delete(from), before, store.Contents(), bus);
      return RolledBack;
    }

    /** How the parent check at height `n` ends Sync, if it does. */
    static ghost function ParentCheck(blocks: map<nat, Block>, env: Env, n: nat, parent: Hash): Option<Trace> {
      if n == 0 then None
      else if env.storeFails(BlockByNumberCall(n - 1)) then Some(Trace([], Failed))
      else if n - 1 in blocks && blocks[n - 1].hash != parent then Some(Rollback(env, n - 1))
      else None
    }

    /** The new block must build on the one stored below it. */
    method CheckParent(n: nat, parent: Hash, env: Env, ghost blocks: map<nat, Block>, ghost s: Contents, ghost es: seq<Event>, ghost done: seq<Action>)
      returns (ended: Option<Outcome>)
      requires Performed(s, es, done) && blocks == store.Contents().Blocks()
      modifies this, store.Repr()
      ensures store.Repr() == old(store.Repr())
      ensures var check := ParentCheck(blocks, env, n, parent);
        && (check.None? ==> ended.None? && Performed(s, es, done) && store.Contents() == old(store.Contents()))
        && (check.Some? ==> ended == Some(check.value.outcome) && Performed(s, es, done + check.value.actions))
    {
      if n == 0 {
        return None;
      }
      var prev := store.BlockByNumber(n - 1, env.storeFails(BlockByNumberCall(n - 1)));
      if prev.Err? {
        assert done + [] == done;
        return Some(Failed);
      }
      if prev.value.Some? && prev.value.value.hash != parent {
        var outcome := RollBack(n - 1, env, s, es, done);
        return Some(outcome);
      }
      return None;
    }

    /** The loop body of Sync at height `n`: either Sync ends here, or block `n` is indexed. */
    method Index(n: nat, head: nat, env: Env, ghost blocks: map<nat, Block>, ghost s: Contents, ghost es: seq<Event>, ghost done: seq<Action>)
      returns (ended: Option<Outcome>)
      requires Performed(s, es, done) && n <= head && blocks == store.Contents().Blocks()
      modifies this, store.Repr()
      ensures fresh(store.Repr() - old(store.Repr()))
      ensures ended.Some? ==>
        && ended.value == Extend(cfg, blocks, env, head, n).outcome
        && Performed(s, es, done + Extend(cfg, blocks, env, head, n).actions)
      ensures ended.None? ==>
        && env.header(n).Some? && env.logs(n).Some?
        && Performed(s, es, done + [SaveAt(cfg, env, head, n)])
        && var rest := Extend(cfg, store.Contents().Blocks(), env, head, n + 1);
           Extend(cfg, blocks, env, head, n) == Trace([SaveAt(cfg, env, head, n)] + rest.actions, rest.outcome)
    {
      assert done + [] == done;
      if env.cancelled(n) || env.header(n).None? {
        return Some(Failed);
      }
      ended := CheckParent(n, env.header(n).value.parentHash, env, blocks, s, es, done);
      if ended.Some? {
        return;
      }
      var ok := FetchAndSave(n, head, env, s, es, done);
      return if ok then None else Some(Failed);
    }

    method FetchAndSave(n: nat, head: nat, env: Env, ghost s: Contents, ghost es: seq<Event>, ghost done: seq<Action>)
      returns (ok: bool)
      requires Performed(s, es, done) && n <= head && env.header(n).Some?
      modifies this, store.Repr()
      ensures fresh(store.Repr() - old(store.Repr()))
      ensures ok <==> env.logs(n).Some? && !env.storeFails(SaveBlockCall(n))
      ensures !ok ==> Performed(s, es, done)
      ensures ok ==> Performed(s, es, done + [SaveAt(cfg, env, head, n)])
      ensures ok ==> store.Contents().Blocks() == old(store.Contents().Blocks())[n := BlockOf(n, env.header(n).value)]
    {
      if env.logs(n).None? {
        return false;
      }
      var transfers := FetchTransfers(cfg.topicID, env.logs(n).value);
      var block := BlockOf(n, env.header(n).value);
      ok := SaveAndPublish(block, transfers, head - n >= cfg.confirmations, env.storeFails(SaveBlockCall(n)), s, es, done);
    }

    /** Nothing is published for a block that was not saved. */
    method SaveAndPublish(b: Block, ts: seq<Transfer>, c: bool, fails: bool, ghost s: Contents, ghost es: seq<Event>, ghost done: seq<Action>)
      returns (ok: bool)
      requires Performed(s, es, done)
      modifies this, store.Repr()
      ensures fresh(store.Repr() - old(store.Repr()))
      ensures ok == !fails
      ensures !ok ==> Performed(s, es, done)
      ensures ok ==> Performed(s, es, done + [Save(b, ts, c)])
      ensures ok ==> store.Contents().Blocks() == old(store.Contents().Blocks())[b.number := b]
    {
      ghost var before := store.Contents();
      ok := store.SaveBlock(b, ts, c, fails);
      if ok {
        PublishSaved(b, ts, c);
        PerformOne(s, es, done, Save(b, ts, c), before, store.Contents(), bus);
      }
    }

    method Promote(head: nat, env: Env, ghost s: Contents, ghost es: seq<Event>, ghost done: seq<Action>)
      returns (outcome: Outcome)
      requires Performed(s, es, done)
      modifies store.Repr()
      ensures store.Repr() == old(store.Repr())
      ensures outcome == Finish(cfg, env, head).outcome
      ensures Performed(s, es, done + Finish(cfg, env, head).actions)
    {
      assert done + [] == done;
      if head >= cfg.confirmations {
        ghost var before := store.Contents();
        var through := head - cfg.confirmations;
        var ok := store.ConfirmThrough(through, env.storeFails(ConfirmThroughCall(through)));
        if !ok {
          return Failed;
        }
        assert bus + [] == bus;
        PerformOne(s, es, done, Confirm(through), before, store.Contents(), bus);
      }
      return Completed;
    }

    /** The loop of Sync and the promotion after it. */
    method IndexFrom(from: nat, head: nat, env: Env, ghost s: Contents, ghost es: seq<Event>)
      returns (outcome: Outcome)
      requires Performed(s, es, []) && store.Contents().Blocks() == s.Blocks()
      modifies this, store.Repr()
      ensures fresh(store.Repr() - old(store.Repr()))
      ensures outcome == Extend(cfg, s.Blocks(), env, head, from).outcome
      ensures Performed(s, es, Extend(cfg, s.Blocks(), env, head, from).actions)
    {
      ghost var spec := Extend(cfg, s.Blocks(), env, head, from);
      ghost var done: seq<Action> := [];
      var n := from;
      assert [] + spec.actions == spec.actions;
      while n <= head
        invariant fresh(store.Repr() - old(store.Repr()))
        invariant Performed(s, es, done)
        invariant spec.actions == done + Extend(cfg, store.Contents().Blocks(), env, head, n).actions
        invariant spec.outcome == Extend(cfg, store.Contents().Blocks(), env, head, n).outcome
      {
        var ended := Index(n, head, env, store.Contents().Blocks(), s, es, done);
        if ended.Some? {
          return ended.value;
        }
        ghost var save := SaveAt(cfg, env, head, n);
        Assoc(done, [save], Extend(cfg, store.Contents().Blocks(), env, head, n + 1).actions);
        done := done + [save];
        n := n + 1;
      }
      outcome := Promote(head, env, s, es, done);
    }

    /** One pass: whatever the answers in `env` and whichever the store, what is done to the
        store and the bus, and the outcome, are those of the specification. */
    method Sync(env: Env) returns (outcome: Outcome)
      requires store.Ready()
      modifies this, store.Repr()
      ensures fresh(store.Repr() - old(store.Repr()))
      ensures outcome == SyncSpec.Sync(cfg, old(store.Contents().Blocks()), env).outcome
      ensures Performed(old(store.Contents()), old(bus), SyncSpec.Sync(cfg, old(store.Contents().Blocks()), env).actions)
    {
      ghost var s, es := store.Contents(), bus;
      assert Performed(s, es, []);
      if env.head.None? {
        return Failed;
      }
      var head := env.head.value.number;

      var last := store.LastBlock(env.storeFails(LastBlockCall));
      if last.Err? {
        return Failed;
      }
      if last.value.None? {
        outcome := IndexFrom(cfg.startBlock, head, env, s, es);
        return;
      }
      outcome := SyncFromTip(last.value.value, head, env, s, es);
    }

    /** The tip check, and the loop above the tip. */
    method SyncFromTip(tip: Block, head: nat, env: Env, ghost s: Contents, ghost es: seq<Event>) returns (outcome: Outcome)
      requires Performed(s, es, []) && store.Contents().Blocks() == s.Blocks()
      modifies this, store.Repr()
      ensures fresh(store.Repr() - old(store.Repr()))
      ensures outcome == FromTip(cfg, s.Blocks(), env, head, tip).outcome
      ensures Performed(s, es, FromTip(cfg, s.Blocks(), env, head, tip).actions)
    {
      if env.header(tip.number).None? {
        return Failed;
      }
      if HashOf(env.header(tip.number).value) != tip.hash {
        outcome := RollBack(tip.number, env, s, es, []);
        assert [] + Rollback(env, tip.number).actions == Rollback(env, tip.number).actions;
      } else {
        outcome := IndexFrom(tip.number + 1, head, env, s, es);
      }
    }

    /** `now` and `es` are what the run of `envs` makes of `first` and publishes after `es0`. */
    static ghost predicate Polled(cfg: Config, first: Contents, es0: seq<Event>, envs: seq<Env>, now: Contents, es: seq<Event>) {
      Same(now, RunOf(cfg, first, envs)) && es == es0 + PublishAll(WritesOf(cfg, first, envs))
    }

    static lemma {:induction false} PolledOnceMore(cfg: Config, first: Contents, es0: seq<Event>, envs: seq<Env>, env: Env,
                                                   now: Contents, es: seq<Event>, after: Contents, es': seq<Event>)
      requires Polled(cfg, first, es0, envs, now, es)
      requires Same(after, WriteAll(now, SyncSpec.Sync(cfg, now.Blocks(), env).actions))
      requires es' == es + PublishAll(SyncSpec.Sync(cfg, now.Blocks(), env).actions)
      ensures Polled(cfg, first, es0, envs + [env], after, es')
    {
      var done, more := WritesOf(cfg, first, envs), SyncSpec.Sync(cfg, now.Blocks(), env).actions;
      OneMoreSync(cfg, first, envs, env, now, after);
      FlatMapConcat(Publish, done, more);
      Assoc(es0, PublishAll(done), PublishAll(more));
    }

    static lemma {:induction false} PolledNothing(cfg: Config, first: Contents, es0: seq<Event>)
      ensures Polled(cfg, first, es0, [], first, es0)
    {
      assert es0 + [] == es0;
    }

    /** One tick of the polling loop, after those of `past`. A failed Sync is only logged. */
    method Tick(env: Env, ghost first: Contents, ghost es0: seq<Event>, ghost past: seq<Env>)
      requires store.Ready() && Polled(cfg, first, es0, past, store.Contents(), bus)
      modifies this, store.Repr()
      ensures store.Ready() && fresh(store.Repr() - old(store.Repr()))
      ensures Polled(cfg, first, es0, past + [env], store.Contents(), bus)
    {
      ghost var now, es := store.Contents(), bus;
      var _ := Sync(env);
      PolledOnceMore(cfg, first, es0, past, env, now, es, store.Contents(), bus);
    }

    method PollFrom(envs: seq<Env>, ghost first: Contents, ghost es0: seq<Event>)
      requires store.Ready() && Polled(cfg, first, es0, [], store.Contents(), bus)
      modifies this, store.Repr()
      ensures store.Ready() && fresh(store.Repr() - old(store.Repr()))
      ensures Polled(cfg, first, es0, envs, store.Contents(), bus)
    {
      ghost var past: seq<Env> := [];
      for i := 0 to |envs|
        invariant store.Ready() && fresh(store.Repr() - old(store.Repr()))
        invariant past == envs[..i] && Polled(cfg, first, es0, past, store.Contents(), bus)
      {
        Tick(envs[i], first, es0, past);
        past := past + [envs[i]];
      }
      assert past == envs;
    }

    /** The polling loop: one Sync after the other, whichever of them fail. Store and bus are
        then those of the run. */
    method Poll(envs: seq<Env>)
      requires store.Ready()
      modifies this, store.Repr()
      ensures store.Ready() && fresh(store.Repr() - old(store.Repr()))
      ensures Same(store.Contents(), RunOf(cfg, old(store.Contents()), envs))
      ensures bus == old(bus) + PublishAll(WritesOf(cfg, old(store.Contents()), envs))
    {
      ghost var first, es0 := store.Contents(), bus;
      PolledNothing(cfg, first, es0);
      PollFrom(envs, first, es0);
    }
  }
}
