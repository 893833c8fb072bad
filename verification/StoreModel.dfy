/** The meaning of the Store interface: index contents as a value, and what each
    operation does to them. */
module StoreModel {
  import opened Chain
  import opened Erc20

  datatype StoredTransfer = StoredTransfer(block: nat, transfer: Transfer, confirmed: bool)

  datatype State = State(blocks: map<nat, Block>, transfers: seq<StoredTransfer>)

  function Empty(): State {
    State(map[], [])
  }

  ghost predicate IsMax(s: set<nat>, m: nat) {
    m in s && forall k :: k in s ==> k <= m
  }

  lemma {:induction false} MaxExists(s: set<nat>) returns (m: nat)
    requires s != {}
    ensures IsMax(s, m)
  {
    m :| m in s;
    if s != {m} {
      assert s - {m} != {} && s == (s - {m}) + {m};
      var m' := MaxExists(s - {m});
      m := if m < m' then m' else m;
    }
  }

  ghost function MaxKey(s: set<nat>): (m: nat)
    requires s != {}
    ensures IsMax(s, m)
  {
    assert exists m :: IsMax(s, m) by {
      var m := MaxExists(s);
    }
    var m :| IsMax(s, m);
    m
  }

  /** The transfers of one block, as they are stored. */
  function Tag(n: nat, ts: seq<Transfer>, confirmed: bool): (r: seq<StoredTransfer>)
    ensures |r| == |ts|
  {
    seq(|ts|, i requires 0 <= i < |ts| => StoredTransfer(n, ts[i], confirmed))
  }

  function BlocksBelow(blocks: map<nat, Block>, n: nat): map<nat, Block> {
    map k | k in blocks && k < n :: blocks[k]
  }

  function Below(ts: seq<StoredTransfer>, n: nat): seq<StoredTransfer> {
    if ts == [] then []
    else
      var front := Below(ts[..|ts| - 1], n);
      if ts[|ts| - 1].block < n then front + [ts[|ts| - 1]] else front
  }

  function Promote(ts: seq<StoredTransfer>, n: nat): (r: seq<StoredTransfer>)
    ensures |r| == |ts|
  {
    seq(|ts|, i requires 0 <= i < |ts| =>
      if ts[i].block <= n then ts[i].(confirmed := true) else ts[i])
  }

  /** A write that Sync performs on the store. */
  datatype Action =
    | Save(block: Block, transfers: seq<Transfer>, confirmed: bool)
    | Delete(from: nat)
    | Confirm(through: nat)

  function Apply(s: State, a: Action): State {
    match a
    case Save(b, ts, c) => State(s.blocks[b.number := b], s.transfers + Tag(b.number, ts, c))
    case Delete(n) => State(BlocksBelow(s.blocks, n), Below(s.transfers, n))
    case Confirm(n) => State(s.blocks, Promote(s.transfers, n))
  }

  /** A save sets the block at its height alone, keeps all transfers, and adds its own in order,
      each with the height and the flag. */
  lemma {:induction false} SaveIsExact(s: State, b: Block, xs: seq<Transfer>, c: bool)
    ensures var t := Apply(s, Save(b, xs, c));
      && (forall n :: n in t.blocks <==> n in s.blocks || n == b.number)
      && t.blocks[b.number] == b && (forall n :: n in s.blocks && n != b.number ==> t.blocks[n] == s.blocks[n])
      && |t.transfers| == |s.transfers| + |xs| && s.transfers <= t.transfers
      && (forall i :: 0 <= i < |xs| ==> var x := t.transfers[|s.transfers| + i];
            x.block == b.number && x.transfer == xs[i] && x.confirmed == c)
  {
    var t := Apply(s, Save(b, xs, c));
    assert t.transfers[..|s.transfers|] == s.transfers;
  }

  function ApplyAll(s: State, actions: seq<Action>): State
    decreases |actions|
  {
    if actions == [] then s
    else ApplyAll(Apply(s, actions[0]), actions[1..])
  }

  lemma {:induction false} ApplyCons(s: State, a: Action, rest: seq<Action>)
    ensures ApplyAll(s, [a] + rest) == ApplyAll(Apply(s, a), rest)
  {
    assert ([a] + rest)[1..] == rest;
  }

  lemma {:induction false} ApplyConcat(s: State, xs: seq<Action>, ys: seq<Action>)
    ensures ApplyAll(s, xs + ys) == ApplyAll(ApplyAll(s, xs), ys)
    decreases |xs|
  {
    if xs == [] {
      assert xs + ys == ys;
    } else {
      assert xs + ys == [xs[0]] + (xs[1..] + ys);
      ApplyCons(s, xs[0], xs[1..] + ys);
      ApplyConcat(Apply(s, xs[0]), xs[1..], ys);
    }
  }

  lemma {:induction false} ApplyOne(s: State, a: Action)
    ensures ApplyAll(s, [a]) == Apply(s, a)
  {
    ApplyCons(s, a, []);
    assert [a] + [] == [a];
  }

  lemma {:induction false} ApplySnoc(s: State, xs: seq<Action>, a: Action)
    ensures ApplyAll(s, xs + [a]) == Apply(ApplyAll(s, xs), a)
  {
    ApplyConcat(s, xs, [a]);
    ApplyOne(ApplyAll(s, xs), a);
  }
}
