/** The Postgres Store: two tables with their constraints, and the statements run on them. */
module Postgres {
  import opened Options
  import opened Bytes
  import opened Chain
  import opened Erc20
  import opened StoreModel

  /** A row of `transfers`. The id comes from a sequence. */
  datatype Row = Row(id: nat, block: nat, transfer: Transfer, confirmed: bool)

  datatype Tables = Tables(blocks: map<nat, Block>, rows: seq<Row>, nextId: nat)

  /** The tables as the schema creates them. */
  function NoRows(): Tables {
    Tables(map[], [], 0)
  }

  /** The rows without their ids. */
  function Forget(rows: seq<Row>): (r: seq<StoredTransfer>)
    ensures |r| == |rows|
  {
    seq(|rows|, i requires 0 <= i < |rows| => StoredTransfer(rows[i].block, rows[i].transfer, rows[i].confirmed))
  }

  /** The columns of the unique constraint. */
  function Key(t: Transfer): (Word, nat) {
    (t.txHash, t.logIndex)
  }

  predicate HasKey(rows: seq<Row>, key: (Word, nat)) {
    exists i :: 0 <= i < |rows| && Key(rows[i].transfer) == key
  }

  /** A row whose key is taken is dropped, but it has still drawn an id. */
  function Insert(t: Tables, n: nat, x: Transfer, c: bool): Tables {
    Tables(t.blocks, if HasKey(t.rows, Key(x)) then t.rows else t.rows + [Row(t.nextId, n, x, c)], t.nextId + 1)
  }

  function InsertAll(t: Tables, n: nat, xs: seq<Transfer>, c: bool): Tables {
    if xs == [] then t
    else Insert(InsertAll(t, n, xs[..|xs| - 1], c), n, xs[|xs| - 1], c)
  }

  /** The cascade of a deletion of the blocks from `n` on: a row goes when the block it
      references goes. */
  function Cascade(blocks: map<nat, Block>, rows: seq<Row>, n: nat): seq<Row> {
    if rows == [] then []
    else
      var front := Cascade(blocks, rows[..|rows| - 1], n);
      var last := rows[|rows| - 1];
      if last.block in blocks && last.block >= n then front else front + [last]
  }

  /** The promotion touches only rows that are deep enough and not promoted yet. */
  function UpdateConfirmed(rows: seq<Row>, n: nat): (r: seq<Row>)
    ensures |r| == |rows|
  {
    seq(|rows|, i requires 0 <= i < |rows| =>
      if rows[i].block <= n && !rows[i].confirmed then rows[i].(confirmed := true) else rows[i])
  }

  function PgApply(t: Tables, a: Action): Tables {
    match a
    case Save(b, xs, c) => InsertAll(t.(blocks := t.blocks[b.number := b]), b.number, xs, c)
    case Delete(n) => Tables(BlocksBelow(t.blocks, n), Cascade(t.blocks, t.rows, n), t.nextId)
    case Confirm(n) => t.(rows := UpdateConfirmed(t.rows, n))
  }

  function PgApplyAll(t: Tables, actions: seq<Action>): Tables
    decreases |actions|
  {
    if actions == [] then t
    else PgApplyAll(PgApply(t, actions[0]), actions[1..])
  }

  lemma {:induction false} PgApplyCons(t: Tables, a: Action, rest: seq<Action>)
    ensures PgApplyAll(t, [a] + rest) == PgApplyAll(PgApply(t, a), rest)
  {
    assert ([a] + rest)[1..] == rest;
  }

  lemma {:induction false} PgApplyConcat(t: Tables, xs: seq<Action>, ys: seq<Action>)
    ensures PgApplyAll(t, xs + ys) == PgApplyAll(PgApplyAll(t, xs), ys)
    decreases |xs|
  {
    if xs == [] {
      assert xs + ys == ys;
    } else {
      assert xs + ys == [xs[0]] + (xs[1..] + ys);
      PgApplyCons(t, xs[0], xs[1..] + ys);
      PgApplyConcat(PgApply(t, xs[0]), xs[1..], ys);
    }
  }

  lemma {:induction false} PgApplyOne(t: Tables, a: Action)
    ensures PgApplyAll(t, [a]) == PgApply(t, a)
  {
    PgApplyCons(t, a, []);
    assert [a] + [] == [a];
  }

  ghost predicate ForeignKey(blocks: map<nat, Block>, rows: seq<Row>) {
    forall i :: 0 <= i < |rows| ==> rows[i].block in blocks
  }

  ghost predicate UniqueKey(rows: seq<Row>) {
    forall i, j :: 0 <= i < j < |rows| ==>
      rows[i].transfer.txHash != rows[j].transfer.txHash || rows[i].transfer.logIndex != rows[j].transfer.logIndex
  }

  ghost predicate IdsIncrease(rows: seq<Row>, nextId: nat) {
    && (forall i :: 0 <= i < |rows| ==> rows[i].id < nextId)
    && (forall i, j :: 0 <= i < j < |rows| ==> rows[i].id < rows[j].id)
  }

  /** The constraints of the schema, and ids in the order in which rows were inserted. */
  ghost predicate Legal(t: Tables) {
    ForeignKey(t.blocks, t.rows) && UniqueKey(t.rows) && IdsIncrease(t.rows, t.nextId)
  }

  lemma {:induction false} InsertKeepsLegal(t: Tables, n: nat, x: Transfer, c: bool)
    requires Legal(t) && n in t.blocks
    ensures Legal(Insert(t, n, x, c))
  {
  }

  lemma {:induction false} InsertAllKeepsLegal(t: Tables, n: nat, xs: seq<Transfer>, c: bool)
    requires Legal(t) && n in t.blocks
    ensures Legal(InsertAll(t, n, xs, c)) && InsertAll(t, n, xs, c).blocks == t.blocks
  {
    if xs != [] {
      InsertAllKeepsLegal(t, n, xs[..|xs| - 1], c);
      InsertKeepsLegal(InsertAll(t, n, xs[..|xs| - 1], c), n, xs[|xs| - 1], c);
    }
  }

  lemma {:induction false} CascadeMembers(blocks: map<nat, Block>, rows: seq<Row>, n: nat)
    ensures forall i :: 0 <= i < |Cascade(blocks, rows, n)| ==> Cascade(blocks, rows, n)[i] in rows
  {
    if rows != [] {
      CascadeMembers(blocks, rows[..|rows| - 1], n);
    }
  }

  lemma {:induction false} CascadeKeepsForeignKey(blocks: map<nat, Block>, rows: seq<Row>, n: nat)
    requires ForeignKey(blocks, rows)
    ensures ForeignKey(BlocksBelow(blocks, n), Cascade(blocks, rows, n))
  {
    if rows != [] {
      CascadeKeepsForeignKey(blocks, rows[..|rows| - 1], n);
    }
  }

  lemma {:induction false} CascadeKeepsUniqueKey(blocks: map<nat, Block>, rows: seq<Row>, n: nat)
    requires UniqueKey(rows)
    ensures UniqueKey(Cascade(blocks, rows, n))
  {
    if rows != [] {
      CascadeKeepsUniqueKey(blocks, rows[..|rows| - 1], n);
      CascadeMembers(blocks, rows[..|rows| - 1], n);
    }
  }

  lemma {:induction false} CascadeKeepsIds(blocks: map<nat, Block>, rows: seq<Row>, n: nat, nextId: nat)
    requires IdsIncrease(rows, nextId)
    ensures IdsIncrease(Cascade(blocks, rows, n), nextId)
  {
    if rows != [] {
      CascadeKeepsIds(blocks, rows[..|rows| - 1], n, nextId);
      CascadeMembers(blocks, rows[..|rows| - 1], n);
    }
  }

  /** Every statement leaves tables that satisfy the schema, whatever it is given. */
  lemma {:induction false} StatementsKeepLegal(t: Tables, a: Action)
    requires Legal(t)
    ensures Legal(PgApply(t, a))
  {
    match a
    case Save(b, xs, c) => InsertAllKeepsLegal(t.(blocks := t.blocks[b.number := b]), b.number, xs, c);
    case Delete(n) =>
      CascadeKeepsForeignKey(t.blocks, t.rows, n);
      CascadeKeepsUniqueKey(t.blocks, t.rows, n);
      CascadeKeepsIds(t.blocks, t.rows, n, t.nextId);
    case Confirm(_) =>
  }

  /** Under the foreign key, exactly the rows below the height stay. */
  lemma {:induction false} CascadeKeeps(blocks: map<nat, Block>, rows: seq<Row>, n: nat)
    requires forall i :: 0 <= i < |rows| ==> rows[i].block in blocks
    ensures forall row :: row in Cascade(blocks, rows, n) <==> row in rows && row.block < n
  {
    if rows != [] {
      var front, last := rows[..|rows| - 1], rows[|rows| - 1];
      CascadeKeeps(blocks, front, n);
      assert rows == front + [last];
    }
  }

  class PostgresStore {
    var tables: Tables

    constructor ()
      ensures tables == NoRows() && Legal(tables)
    {
      tables := NoRows();
    }

    /** The inserts of a transaction, up to the one that fails, if any: `failAt` is i + 1 for
        the insert of transfer i. */
    method InsertTransfers(tx: Tables, n: nat, transfers: seq<Transfer>, confirmed: bool, failAt: Option<nat>)
      returns (tx': Tables, ok: bool)
      requires failAt != Some(0)
      ensures ok <==> !(failAt.Some? && failAt.value <= |transfers|)
      ensures ok ==> tx' == InsertAll(tx, n, transfers, confirmed)
      ensures tx.nextId <= tx'.nextId <= tx.nextId + |transfers|
    {
      tx' := tx;
      for i := 0 to |transfers|
        invariant tx' == InsertAll(tx, n, transfers[..i], confirmed) && tx'.nextId == tx.nextId + i
        invariant failAt.Some? ==> failAt.value > i
      {
        if failAt == Some(i + 1) {
          return tx', false;
        }
        assert transfers[..i + 1][..i] == transfers[..i];
        tx' := Insert(tx', n, transfers[i], confirmed);
      }
      assert transfers[..|transfers|] == transfers;
      ok := true;
    }

    /** One transaction. `failAt` is the statement that fails, if any: 0 is the block upsert,
        i + 1 the insert of transfer i, and |transfers| + 1 the commit. On a failure blocks
        and rows are as before, but the ids drawn so far are gone. */
    method SaveBlock(b: Block, transfers: seq<Transfer>, confirmed: bool, failAt: Option<nat>) returns (ok: bool)
      requires Legal(tables)
      modifies this
      ensures Legal(tables)
      ensures ok <==> !(failAt.Some? && failAt.value <= |transfers| + 1)
      ensures ok ==> tables == PgApply(old(tables), Save(b, transfers, confirmed))
      ensures !ok ==> tables.blocks == old(tables.blocks) && tables.rows == old(tables.rows)
      ensures old(tables.nextId) <= tables.nextId <= old(tables.nextId) + |transfers|
    {
      if failAt == Some(0) {
        return false;
      }
      var tx := tables.(blocks := tables.blocks[b.number := b]);
      tx, ok := InsertTransfers(tx, b.number, transfers, confirmed, failAt);
      if !ok || failAt == Some(|transfers| + 1) {
        tables := tables.(nextId := tx.nextId);
        return false;
      }
      StatementsKeepLegal(tables, Save(b, transfers, confirmed));
      tables := tx;
    }

    method LastBlock(fails: bool) returns (last: Result<Option<Block>>)
      ensures last.Err? <==> fails
      ensures last.Ok? ==> (last.value.None? <==> tables.blocks == map[])
      ensures last.Ok? && last.value.Some? ==> last.value.value == tables.blocks[MaxKey(tables.blocks.Keys)]
    {
      if fails {
        return Err;
      }
      if |tables.blocks| == 0 {
        return Ok(None);
      }
      ghost var m := MaxKey(tables.blocks.Keys);
      var n :| n in tables.blocks.Keys && forall k :: k in tables.blocks.Keys ==> k <= n;
      return Ok(Some(tables.blocks[n]));
    }

    method BlockByNumber(number: nat, fails: bool) returns (b: Result<Option<Block>>)
      ensures b.Err? <==> fails
      ensures b.Ok? ==> b.value == if number in tables.blocks then Some(tables.blocks[number]) else None
    {
      b := if fails then Err else Ok(if number in tables.blocks then Some(tables.blocks[number]) else None);
    }

    /** Exactly the blocks and rows below the height stay. The rows keep their ids, whose order
        is the order of the rows. */
    method DeleteFrom(number: nat, fails: bool) returns (ok: bool)
      requires Legal(tables)
      modifies this
      ensures Legal(tables) && tables.nextId == old(tables.nextId)
      ensures ok == !fails && (!ok ==> tables == old(tables))
      ensures ok ==> tables == PgApply(old(tables), Delete(number))
      ensures ok ==> forall k :: k in tables.blocks <==> k in old(tables.blocks) && k < number
      ensures ok ==> forall k :: k in tables.blocks ==> tables.blocks[k] == old(tables.blocks)[k]
      ensures ok ==> forall row :: row in tables.rows <==> row in old(tables.rows) && row.block < number
    {
      ok := !fails;
      if ok {
        StatementsKeepLegal(tables, Delete(number));
        CascadeKeeps(tables.blocks, tables.rows, number);
        tables := PgApply(tables, Delete(number));
      }
    }

    /** Every row stays where it is, with its id; its flag is set if it was, or if its block is
        at or below the height. */
    method ConfirmThrough(number: nat, fails: bool) returns (ok: bool)
      requires Legal(tables)
      modifies this
      ensures Legal(tables) && tables.nextId == old(tables.nextId) && tables.blocks == old(tables.blocks)
      ensures ok == !fails && (!ok ==> tables == old(tables))
      ensures ok ==> tables == PgApply(old(tables), Confirm(number))
      ensures ok ==> |tables.rows| == |old(tables.rows)| && forall i :: 0 <= i < |tables.rows| ==>
        tables.rows[i] == old(tables.rows)[i].(confirmed := old(tables.rows)[i].confirmed || old(tables.rows)[i].block <= number)
    {
      ok := !fails;
      if ok {
        StatementsKeepLegal(tables, Confirm(number));
        tables := PgApply(tables, Confirm(number));
      }
    }
  }
}
