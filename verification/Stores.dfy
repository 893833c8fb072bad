/** The Store interface: either implementation behind the same five operations. */
module Stores {
  import opened Options
  import opened Bytes
  import opened Chain
  import opened Erc20
  import opened StoreModel
  import opened MemStores
  import opened Postgres

  /** What a store holds, in its own representation. */
  datatype Contents = InMemory(state: State) | InPostgres(tables: Tables) {
    function Blocks(): map<nat, Block> {
      match this
      case InMemory(s) => s.blocks
      case InPostgres(t) => t.blocks
    }
  }

  function Write(c: Contents, a: Action): Contents {
    match c
    case InMemory(s) => InMemory(Apply(s, a))
    case InPostgres(t) => InPostgres(PgApply(t, a))
  }

  function WriteAll(c: Contents, actions: seq<Action>): Contents {
    if actions == [] then c
    else Write(WriteAll(c, actions[..|actions| - 1]), actions[|actions| - 1])
  }

  lemma {:induction false} WriteSnoc(c: Contents, actions: seq<Action>, a: Action)
    ensures WriteAll(c, actions + [a]) == Write(WriteAll(c, actions), a)
  {
    assert (actions + [a])[..|actions|] == actions;
  }

  lemma {:induction false} WriteAllInMemory(s: State, actions: seq<Action>)
    ensures WriteAll(InMemory(s), actions) == InMemory(ApplyAll(s, actions))
  {
    if actions != [] {
      var front, a := actions[..|actions| - 1], actions[|actions| - 1];
      WriteAllInMemory(s, front);
      ApplySnoc(s, front, a);
      assert front + [a] == actions;
    }
  }

  lemma {:induction false} WriteAllInPostgres(t: Tables, actions: seq<Action>)
    ensures WriteAll(InPostgres(t), actions) == InPostgres(PgApplyAll(t, actions))
  {
    if actions != [] {
      var front, a := actions[..|actions| - 1], actions[|actions| - 1];
      WriteAllInPostgres(t, front);
      PgApplyConcat(t, front, [a]);
      PgApplyOne(PgApplyAll(t, front), a);
      assert front + [a] == actions;
    }
  }

  lemma {:induction false} InsertAllKeepsBlocks(t: Tables, n: nat, xs: seq<Transfer>, c: bool)
    ensures InsertAll(t, n, xs, c).blocks == t.blocks
  {
    if xs != [] {
      InsertAllKeepsBlocks(t, n, xs[..|xs| - 1], c);
    }
  }

  /** The same blocks and the same transfers, whatever ids the rows have. */
  predicate Same(c: Contents, d: Contents) {
    match c
    case InMemory(_) => c == d
    case InPostgres(t) => d.InPostgres? && SameTables(t, d.tables)
  }

  predicate SameTables(t: Tables, u: Tables) {
    t.blocks == u.blocks && Forget(t.rows) == Forget(u.rows)
  }

  lemma {:induction false} SameTransfers(rows: seq<Row>, others: seq<Row>, i: nat)
    requires Forget(rows) == Forget(others) && i < |rows|
    ensures |others| == |rows| && others[i].block == rows[i].block && others[i].transfer == rows[i].transfer
    ensures others[i].confirmed == rows[i].confirmed
  {
    assert Forget(rows)[i] == Forget(others)[i];
  }

  lemma {:induction false} SameHasKey(rows: seq<Row>, others: seq<Row>, key: (Word, nat))
    requires Forget(rows) == Forget(others)
    ensures HasKey(rows, key) ==> HasKey(others, key)
  {
    if i :| 0 <= i < |rows| && Key(rows[i].transfer) == key {
      SameTransfers(rows, others, i);
    }
  }

  lemma {:induction false} SameInsertAll(t: Tables, u: Tables, n: nat, xs: seq<Transfer>, c: bool)
    requires SameTables(t, u)
    ensures SameTables(InsertAll(t, n, xs, c), InsertAll(u, n, xs, c))
  {
    if xs != [] {
      var front, x := xs[..|xs| - 1], xs[|xs| - 1];
      SameInsertAll(t, u, n, front, c);
      var t', u' := InsertAll(t, n, front, c), InsertAll(u, n, front, c);
      SameHasKey(t'.rows, u'.rows, Key(x));
      SameHasKey(u'.rows, t'.rows, Key(x));
      ForgetSnoc(t'.rows, Row(t'.nextId, n, x, c));
      ForgetSnoc(u'.rows, Row(u'.nextId, n, x, c));
    }
  }

  lemma {:induction false} ForgetSnoc(rows: seq<Row>, row: Row)
    ensures Forget(rows + [row]) == Forget(rows) + [StoredTransfer(row.block, row.transfer, row.confirmed)]
  {
  }

  lemma {:induction false} SameCascade(blocks: map<nat, Block>, rows: seq<Row>, others: seq<Row>, n: nat)
    requires Forget(rows) == Forget(others)
    ensures Forget(Cascade(blocks, rows, n)) == Forget(Cascade(blocks, others, n))
  {
    assert |Forget(rows)| == |Forget(others)|;
    if rows != [] {
      var k := |rows| - 1;
      SameTransfers(rows, others, k);
      assert Forget(rows[..k]) == Forget(rows)[..k] && Forget(others[..k]) == Forget(others)[..k];
      SameCascade(blocks, rows[..k], others[..k], n);
      ForgetSnoc(Cascade(blocks, rows[..k], n), rows[k]);
      ForgetSnoc(Cascade(blocks, others[..k], n), others[k]);
    }
  }

  lemma {:induction false} SameConfirmed(rows: seq<Row>, others: seq<Row>, n: nat)
    requires Forget(rows) == Forget(others)
    ensures Forget(UpdateConfirmed(rows, n)) == Forget(UpdateConfirmed(others, n))
  {
    assert |Forget(rows)| == |Forget(others)|;
    forall i | 0 <= i < |rows| ensures Forget(UpdateConfirmed(rows, n))[i] == Forget(UpdateConfirmed(others, n))[i] {
      SameTransfers(rows, others, i);
    }
  }

  /** No write looks at ids. */
  lemma {:induction false} WriteKeepsSame(c: Contents, d: Contents, a: Action)
    requires Same(c, d)
    ensures Same(Write(c, a), Write(d, a))
  {
    if c.InPostgres? {
      match a
      case Save(b, xs, f) =>
        var t, u := c.tables, d.tables;
        SameInsertAll(t.(blocks := t.blocks[b.number := b]), u.(blocks := u.blocks[b.number := b]), b.number, xs, f);
      case Delete(n) => SameCascade(c.tables.blocks, c.tables.rows, d.tables.rows, n);
      case Confirm(n) => SameConfirmed(c.tables.rows, d.tables.rows, n);
    }
  }

  /** Either store. `fails` says that the call returns an error, which the in-memory store
      never does by itself. */
  datatype Store = MemoryStore(mem: MemStore) | SqlStore(pg: PostgresStore) {

    ghost function Repr(): set<object>
      reads if MemoryStore? then {mem} else {}
    {
      match this
      case MemoryStore(m) => {m, m.slots}
      case SqlStore(p) => {p}
    }

    ghost predicate Ready()
      reads Repr()
    {
      match this
      case MemoryStore(m) => m.Valid()
      case SqlStore(p) => Legal(p.tables)
    }

    ghost function Contents(): Contents
      requires Ready()
      reads Repr()
    {
      match this
      case MemoryStore(m) => InMemory(m.Contents())
      case SqlStore(p) => InPostgres(p.tables)
    }

    /** On an error, at whichever statement, the blocks and the transfers are as before. */
    method SaveBlock(b: Block, ts: seq<Transfer>, c: bool, fails: bool) returns (ok: bool)
      requires Ready()
      modifies Repr()
      ensures Ready() && fresh(Repr() - old(Repr()))
      ensures ok == !fails
      ensures ok ==> Contents() == Write(old(Contents()), Save(b, ts, c))
      ensures ok ==> Contents().Blocks() == old(Contents()).Blocks()[b.number := b]
      ensures !ok ==> Same(Contents(), old(Contents()))
    {
      match this {
        case MemoryStore(m) =>
          ok := !fails;
          if ok {
            m.SaveBlock(b, ts, c);
          }
        case SqlStore(p) =>
          ghost var upserted := p.tables.(blocks := p.tables.blocks[b.number := b]);
          var at: nat :| at <= |ts| + 1;
          ok := p.SaveBlock(b, ts, c, if fails then Some(at) else None);
          InsertAllKeepsBlocks(upserted, b.number, ts, c);
      }
    }

    method LastBlock(fails: bool) returns (last: Result<Option<Block>>)
      requires Ready()
      ensures last.Err? <==> fails
      ensures last.Ok? ==> (last.value.None? <==> Contents().Blocks() == map[])
      ensures last.Ok? && last.value.Some? ==> last.value.value == Contents().Blocks()[MaxKey(Contents().Blocks().Keys)]
    {
      match this {
        case MemoryStore(m) =>
          if fails {
            return Err;
          }
          var b := m.LastBlock();
          last := Ok(b);
        case SqlStore(p) =>
          last := p.LastBlock(fails);
      }
    }

    method BlockByNumber(n: nat, fails: bool) returns (b: Result<Option<Block>>)
      requires Ready()
      ensures b.Err? <==> fails
      ensures b.Ok? ==> b.value == if n in Contents().Blocks() then Some(Contents().Blocks()[n]) else None
    {
      match this {
        case MemoryStore(m) =>
          if fails {
            return Err;
          }
          var found := m.BlockByNumber(n);
          b := Ok(found);
        case SqlStore(p) =>
          b := p.BlockByNumber(n, fails);
      }
    }

    method DeleteFrom(n: nat, fails: bool) returns (ok: bool)
      requires Ready()
      modifies Repr()
      ensures Ready() && Repr() == old(Repr())
      ensures ok == !fails
      ensures Contents() == if ok then Write(old(Contents()), Delete(n)) else old(Contents())
    {
      match this {
        case MemoryStore(m) =>
          ok := !fails;
          if ok {
            m.DeleteFrom(n);
          }
        case SqlStore(p) =>
          ok := p.DeleteFrom(n, fails);
      }
    }

    method ConfirmThrough(n: nat, fails: bool) returns (ok: bool)
      requires Ready()
      modifies Repr()
      ensures Ready() && Repr() == old(Repr())
      ensures ok == !fails
      ensures Contents() == if ok then Write(old(Contents()), Confirm(n)) else old(Contents())
    {
      match this {
        case MemoryStore(m) =>
          ok := !fails;
          if ok {
            m.ConfirmThrough(n);
          }
        case SqlStore(p) =>
          ok := p.ConfirmThrough(n, fails);
      }
    }
  }
}
