/** Saving a height that is stored already: when it replaces what was there, on each store. */
module Resave {
  import opened Bytes
  import opened Chain
  import opened Erc20
  import opened StoreModel
  import opened SyncSpec
  import opened ChainInvariant
  import opened Postgres
  import opened Stores
  import opened Inserts
  import opened Refinement
  import opened TableRuns
  import IndexSpec

  function OfBlock(ts: seq<StoredTransfer>, n: nat): seq<StoredTransfer> {
    if ts == [] then []
    else OfBlock(ts[..|ts| - 1], n) + (if ts[|ts| - 1].block == n then [ts[|ts| - 1]] else [])
  }

  /** What upserting a block's transfers means: they are now exactly `xs`, with flag `c`, and
      those of other blocks are as before. */
  ghost predicate Upserts(before: seq<StoredTransfer>, after: seq<StoredTransfer>, n: nat, xs: seq<Transfer>, c: bool) {
    OfBlock(after, n) == Tag(n, xs, c) && forall m :: m != n ==> OfBlock(after, m) == OfBlock(before, m)
  }

  lemma {:induction false} OfBlockSnoc(ts: seq<StoredTransfer>, x: StoredTransfer, n: nat)
    ensures OfBlock(ts + [x], n) == OfBlock(ts, n) + (if x.block == n then [x] else [])
  {
    assert (ts + [x])[..|ts|] == ts;
  }

  lemma {:induction false} OfBlockConcat(a: seq<StoredTransfer>, b: seq<StoredTransfer>, n: nat)
    ensures OfBlock(a + b, n) == OfBlock(a, n) + OfBlock(b, n)
    decreases |b|
  {
    if b == [] {
      assert a + b == a;
    } else {
      var front, x := b[..|b| - 1], b[|b| - 1];
      OfBlockConcat(a, front, n);
      OfBlockSnoc(a + front, x, n);
      assert a + b == (a + front) + [x];
    }
  }

  lemma {:induction false} OfBlockOfTag(n: nat, xs: seq<Transfer>, c: bool, m: nat)
    ensures OfBlock(Tag(n, xs, c), m) == if m == n then Tag(n, xs, c) else []
  {
    if xs != [] {
      var front, x := xs[..|xs| - 1], xs[|xs| - 1];
      OfBlockOfTag(n, front, c, m);
      assert xs == front + [x];
      TagSnoc(n, front, x, c);
      OfBlockSnoc(Tag(n, front, c), StoredTransfer(n, x, c), m);
    }
  }

  lemma {:induction false} OfBlockAppended(ts: seq<StoredTransfer>, n: nat, xs: seq<Transfer>, c: bool, m: nat)
    ensures OfBlock(ts + Tag(n, xs, c), m) == OfBlock(ts, m) + (if m == n then Tag(n, xs, c) else [])
  {
    OfBlockConcat(ts, Tag(n, xs, c), m);
    OfBlockOfTag(n, xs, c, m);
  }

  lemma {:induction false} OfBlockMembers(ts: seq<StoredTransfer>, n: nat)
    ensures forall x :: x in OfBlock(ts, n) <==> x in ts && x.block == n
  {
    if ts != [] {
      OfBlockMembers(ts[..|ts| - 1], n);
    }
  }

  /** In memory, a save upserts if and only if no transfer of the height is stored. */
  lemma {:induction false} MemSaveUpsertsIff(s: State, b: Block, xs: seq<Transfer>, c: bool)
    ensures Upserts(s.transfers, Apply(s, Save(b, xs, c)).transfers, b.number, xs, c) <==> OfBlock(s.transfers, b.number) == []
  {
    forall m ensures var after := Apply(s, Save(b, xs, c)).transfers;
      OfBlock(after, m) == OfBlock(s.transfers, m) + (if m == b.number then Tag(b.number, xs, c) else [])
    {
      OfBlockAppended(s.transfers, b.number, xs, c, m);
    }
  }

  /** In memory, saving the same block again changes nothing if and only if it has no
      transfers: they are stored twice. */
  lemma {:induction false} MemResaveIsNoOpIff(s: State, b: Block, xs: seq<Transfer>, c: bool)
    ensures var once := Apply(s, Save(b, xs, c)); var twice := Apply(once, Save(b, xs, c));
      && twice.transfers == s.transfers + Tag(b.number, xs, c) + Tag(b.number, xs, c)
      && (twice == once <==> xs == [])
  {
    var once := Apply(s, Save(b, xs, c));
    assert |Apply(once, Save(b, xs, c)).transfers| == |once.transfers| + |xs|;
    if xs == [] {
      assert once.transfers + Tag(b.number, xs, c) == once.transfers;
    }
  }

  lemma {:induction false} PgSaveAdds(t: Tables, b: Block, xs: seq<Transfer>, c: bool)
    ensures Forget(PgApply(t, Save(b, xs, c)).rows) == Forget(t.rows) + Tag(b.number, NewKeys(Keys(Forget(t.rows)), xs), c)
  {
    InsertsNewKeys(t.(blocks := t.blocks[b.number := b]), b.number, xs, c);
  }

  lemma {:induction false} TakenGiveNone(taken: set<(Word, nat)>, xs: seq<Transfer>)
    requires KeysIn(xs) <= taken
    ensures NewKeys(taken, xs) == []
  {
    if xs != [] {
      var front, x := xs[..|xs| - 1], xs[|xs| - 1];
      assert xs == front + [x];
      KeysInSnoc(front, x);
      TakenGiveNone(taken, front);
    }
  }

  lemma {:induction false} NewKeysSnoc(taken: set<(Word, nat)>, xs: seq<Transfer>, x: Transfer)
    ensures NewKeys(taken, xs + [x]) == NewKeys(taken, xs) + (if Key(x) in taken || Key(x) in KeysIn(xs) then [] else [x])
  {
    assert (xs + [x])[..|xs|] == xs;
  }

  /** Transfers whose keys are all taken add nothing, and do not affect what later ones add. */
  lemma {:induction false} NewKeysAfterTaken(taken: set<(Word, nat)>, xs: seq<Transfer>, ys: seq<Transfer>)
    requires KeysIn(xs) <= taken
    ensures NewKeys(taken, xs + ys) == NewKeys(taken, ys)
    decreases |ys|
  {
    if ys == [] {
      assert xs + ys == xs;
      TakenGiveNone(taken, xs);
    } else {
      var front, y := ys[..|ys| - 1], ys[|ys| - 1];
      NewKeysAfterTaken(taken, xs, front);
      assert xs + ys == (xs + front) + [y];
      NewKeysSnoc(taken, xs + front, y);
      KeysInConcat(xs, front);
    }
  }

  lemma {:induction false} TagSplit(n: nat, xs: seq<Transfer>, k: nat, c: bool)
    requires k <= |xs|
    ensures Tag(n, xs, c) == Tag(n, xs[..k], c) + Tag(n, xs[k..], c)
  {
  }

  /** The rows of the height are the first of `xs` already, with the flag, and the others of
      `xs` have fresh keys. */
  ghost predicate Extends(t: Tables, n: nat, xs: seq<Transfer>, c: bool) {
    var stored := OfBlock(Forget(t.rows), n);
    |stored| <= |xs| && stored == Tag(n, xs[..|stored|], c) && FreshKeys(t.rows, xs[|stored|..])
  }

  lemma {:induction false} StoredKeysTaken(t: Tables, n: nat, xs: seq<Transfer>, c: bool)
    requires OfBlock(Forget(t.rows), n) == Tag(n, xs, c)
    ensures KeysIn(xs) <= Keys(Forget(t.rows))
  {
    var ts := Forget(t.rows);
    OfBlockMembers(ts, n);
    forall key | key in KeysIn(xs) ensures key in Keys(ts) {
      var i :| 0 <= i < |xs| && Key(xs[i]) == key;
      assert Tag(n, xs, c)[i] in ts;
      var j :| 0 <= j < |ts| && ts[j] == Tag(n, xs, c)[i];
      assert Key(ts[j].transfer) == key;
    }
  }

  lemma {:induction false} ExtendsAddsRest(t: Tables, n: nat, xs: seq<Transfer>, c: bool)
    requires Extends(t, n, xs, c)
    ensures OfBlock(Forget(t.rows), n) + Tag(n, NewKeys(Keys(Forget(t.rows)), xs), c) == Tag(n, xs, c)
  {
    var k, taken := |OfBlock(Forget(t.rows), n)|, Keys(Forget(t.rows));
    StoredKeysTaken(t, n, xs[..k], c);
    NewKeysAfterTaken(taken, xs[..k], xs[k..]);
    assert xs[..k] + xs[k..] == xs;
    NewKeysAreNew(taken, xs[k..]);
    TagSplit(n, xs, k, c);
  }

  lemma {:induction false} RestAddedExtends(t: Tables, n: nat, xs: seq<Transfer>, c: bool)
    requires OfBlock(Forget(t.rows), n) + Tag(n, NewKeys(Keys(Forget(t.rows)), xs), c) == Tag(n, xs, c)
    ensures Extends(t, n, xs, c)
  {
    var stored, added := OfBlock(Forget(t.rows), n), NewKeys(Keys(Forget(t.rows)), xs);
    var k := |stored|;
    assert |stored + Tag(n, added, c)| == |Tag(n, xs, c)|;
    TagSplit(n, xs, k, c);
    assert stored == Tag(n, xs, c)[..k] == Tag(n, xs[..k], c);
    assert Tag(n, added, c) == Tag(n, xs, c)[k..] == Tag(n, xs[k..], c);
    IndexSpec.TagInjective(n, added, xs[k..], c);
    NewKeysAreNew(Keys(Forget(t.rows)), xs);
  }

  /** In Postgres, a save upserts if and only if the rows of the height are already the first
      of its transfers, with the same flag, and no other of them meets a conflict. */
  lemma {:induction false} PgSaveUpsertsIff(t: Tables, b: Block, xs: seq<Transfer>, c: bool)
    ensures Upserts(Forget(t.rows), Forget(PgApply(t, Save(b, xs, c)).rows), b.number, xs, c) <==> Extends(t, b.number, xs, c)
  {
    var n, ts, added := b.number, Forget(t.rows), NewKeys(Keys(Forget(t.rows)), xs);
    PgSaveAdds(t, b, xs, c);
    forall m ensures OfBlock(ts + Tag(n, added, c), m) == OfBlock(ts, m) + (if m == n then Tag(n, added, c) else []) {
      OfBlockAppended(ts, n, added, c, m);
    }
    if Extends(t, n, xs, c) {
      ExtendsAddsRest(t, n, xs, c);
    }
    if OfBlock(ts, n) + Tag(n, added, c) == Tag(n, xs, c) {
      RestAddedExtends(t, n, xs, c);
    }
  }

  /** In Postgres, when a height is saved twice, with whatever transfers, all that the first
      save added stays as it was, flag included, and of the second only the transfers are
      added whose key neither a row nor the first save had; the block is the second one. */
  lemma {:induction false} PgResaveKeepsFirst(t: Tables, b: Block, xs: seq<Transfer>, c: bool, b': Block, ys: seq<Transfer>, c': bool)
    requires b'.number == b.number
    ensures var n, taken := b.number, Keys(Forget(t.rows)); var twice := PgApply(PgApply(t, Save(b, xs, c)), Save(b', ys, c'));
      && twice.blocks == t.blocks[n := b']
      && Forget(twice.rows) == Forget(t.rows) + Tag(n, NewKeys(taken, xs), c) + Tag(n, NewKeys(taken + KeysIn(xs), ys), c')
  {
    var n, taken, once := b.number, Keys(Forget(t.rows)), PgApply(t, Save(b, xs, c));
    PgSaveAdds(t, b, xs, c);
    PgSaveAdds(once, b', ys, c');
    InsertAllKeepsBlocks(t.(blocks := t.blocks[n := b]), n, xs, c);
    InsertAllKeepsBlocks(once.(blocks := once.blocks[n := b']), n, ys, c');
    KeysConcat(Forget(t.rows), Tag(n, NewKeys(taken, xs), c));
    KeysOfTag(n, NewKeys(taken, xs), c);
    NewKeysCover(taken, xs);
  }

  lemma {:induction false} TakenAddsNothing(t: Tables, n: nat, xs: seq<Transfer>, c: bool)
    requires KeysIn(xs) <= Keys(Forget(t.rows))
    ensures InsertAll(t, n, xs, c).rows == t.rows
  {
    if xs != [] {
      var front, x := xs[..|xs| - 1], xs[|xs| - 1];
      assert xs == front + [x];
      KeysInSnoc(front, x);
      TakenAddsNothing(t, n, front, c);
      HasKeyIff(t.rows, Key(x));
    }
  }

  /** In Postgres, saving the same block again changes no block and no row. */
  lemma {:induction false} PgResaveIsNoOp(t: Tables, b: Block, xs: seq<Transfer>, c: bool)
    ensures var once := PgApply(t, Save(b, xs, c)); var twice := PgApply(once, Save(b, xs, c));
      twice.blocks == once.blocks && twice.rows == once.rows
  {
    var n, taken, once := b.number, Keys(Forget(t.rows)), PgApply(t, Save(b, xs, c));
    PgSaveAdds(t, b, xs, c);
    KeysConcat(Forget(t.rows), Tag(n, NewKeys(taken, xs), c));
    KeysOfTag(n, NewKeys(taken, xs), c);
    NewKeysCover(taken, xs);
    InsertAllKeepsBlocks(t.(blocks := t.blocks[n := b]), n, xs, c);
    InsertAllKeepsBlocks(once.(blocks := once.blocks[n := b]), n, xs, c);
    TakenAddsNothing(once.(blocks := once.blocks[n := b]), n, xs, c);
  }

  lemma {:induction false} NoneOfNewBlock(ts: seq<StoredTransfer>, n: nat)
    requires forall i :: 0 <= i < |ts| ==> ts[i].block != n
    ensures OfBlock(ts, n) == []
  {
    if ts != [] {
      NoneOfNewBlock(ts[..|ts| - 1], n);
    }
  }

  /** Sync never saves a stored height, so on every run, with any answers, each of its saves
      upserts in memory, and in Postgres if and only if no transfer meets a conflict. */
  lemma {:induction false} SyncSavesUpsert(cfg: Config, envs: seq<Env>, env: Env, k: nat)
    requires k < |Sync(cfg, PgRun(cfg, NoRows(), envs).blocks, env).actions|
    requires Sync(cfg, PgRun(cfg, NoRows(), envs).blocks, env).actions[k].Save?
    ensures var t := PgRun(cfg, NoRows(), envs); var actions := Sync(cfg, t.blocks, env).actions;
      var s, u, a := ApplyAll(Run(cfg, Empty(), envs), actions[..k]), PgApplyAll(t, actions[..k]), actions[k];
      && a.block.number !in u.blocks
      && Upserts(s.transfers, Apply(s, a).transfers, a.block.number, a.transfers, a.confirmed)
      && (Upserts(Forget(u.rows), Forget(PgApply(u, a).rows), a.block.number, a.transfers, a.confirmed)
          <==> FreshKeys(u.rows, a.transfers))
  {
    var s := InsideNextSync(cfg, envs, env, k);
    var t := PgRun(cfg, NoRows(), envs);
    var actions := Sync(cfg, t.blocks, env).actions;
    var a := actions[k];
    assert actions[k..][0] == a;
    FreshHeightUpserts(cfg.startBlock, s, PgApplyAll(t, actions[..k]), a);
  }

  lemma {:induction false} FreshHeightUpserts(start: nat, s: State, u: Tables, a: Action)
    requires Indexed(start, s) && DropsRepeats(s, u) && a.Save? && a.block.number == Next(start, s.blocks)
    ensures a.block.number !in u.blocks
    ensures Upserts(s.transfers, Apply(s, a).transfers, a.block.number, a.transfers, a.confirmed)
    ensures Upserts(Forget(u.rows), Forget(PgApply(u, a).rows), a.block.number, a.transfers, a.confirmed)
      <==> FreshKeys(u.rows, a.transfers)
  {
    var n := a.block.number;
    assert n !in s.blocks;
    NoneOfNewBlock(s.transfers, n);
    MemSaveUpsertsIff(s, a.block, a.transfers, a.confirmed);
    NoneOfNewBlock(Forget(u.rows), n);
    PgSaveUpsertsIff(u, a.block, a.transfers, a.confirmed);
    assert a.transfers[0..] == a.transfers && Tag(n, a.transfers[..0], a.confirmed) == [];
  }
}
