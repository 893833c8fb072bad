/** Which transfers an insert with a unique key adds: those whose key is taken by no row and
    by no earlier transfer. */
module Inserts {
  import opened Bytes
  import opened Chain
  import opened Erc20
  import opened StoreModel
  import opened Postgres
  import opened Stores

  function Keys(ts: seq<StoredTransfer>): set<(Word, nat)> {
    set i | 0 <= i < |ts| :: Key(ts[i].transfer)
  }

  function KeysIn(xs: seq<Transfer>): set<(Word, nat)> {
    set i | 0 <= i < |xs| :: Key(xs[i])
  }

  /** The transfers of `xs` whose key is not in `taken` and is not that of an earlier one. */
  function NewKeys(taken: set<(Word, nat)>, xs: seq<Transfer>): seq<Transfer> {
    if xs == [] then []
    else
      var front, x := xs[..|xs| - 1], xs[|xs| - 1];
      NewKeys(taken, front) + (if Key(x) in taken || Key(x) in KeysIn(front) then [] else [x])
  }

  lemma {:induction false} KeysConcat(a: seq<StoredTransfer>, b: seq<StoredTransfer>)
    ensures Keys(a + b) == Keys(a) + Keys(b)
  {
    var all := a + b;
    forall key ensures key in Keys(all) <==> key in Keys(a) + Keys(b) {
      if key in Keys(all) {
        var i :| 0 <= i < |all| && Key(all[i].transfer) == key;
        assert i < |a| ==> all[i] == a[i];
        assert i >= |a| ==> all[i] == b[i - |a|];
      }
      if i :| 0 <= i < |a| && Key(a[i].transfer) == key {
        assert all[i] == a[i];
      }
      if i :| 0 <= i < |b| && Key(b[i].transfer) == key {
        assert all[|a| + i] == b[i];
      }
    }
  }

  lemma {:induction false} KeysOfTag(n: nat, xs: seq<Transfer>, c: bool)
    ensures Keys(Tag(n, xs, c)) == KeysIn(xs)
  {
    var ts := Tag(n, xs, c);
    assert forall i :: 0 <= i < |xs| ==> ts[i].transfer == xs[i];
    forall key ensures key in Keys(ts) <==> key in KeysIn(xs) {
      if i :| 0 <= i < |xs| && Key(xs[i]) == key {
        assert Key(ts[i].transfer) == key;
      }
    }
  }

  lemma {:induction false} KeysInConcat(xs: seq<Transfer>, ys: seq<Transfer>)
    ensures KeysIn(xs + ys) == KeysIn(xs) + KeysIn(ys)
  {
    KeysOfTag(0, xs, false);
    KeysOfTag(0, ys, false);
    KeysOfTag(0, xs + ys, false);
    KeysConcat(Tag(0, xs, false), Tag(0, ys, false));
    assert Tag(0, xs + ys, false) == Tag(0, xs, false) + Tag(0, ys, false);
  }

  lemma {:induction false} KeysInSnoc(xs: seq<Transfer>, x: Transfer)
    ensures KeysIn(xs + [x]) == KeysIn(xs) + {Key(x)}
  {
    KeysInConcat(xs, [x]);
    assert KeysIn([x]) == {Key(x)} by {
      assert [x][0] == x;
    }
  }

  lemma {:induction false} HasKeyIff(rows: seq<Row>, key: (Word, nat))
    ensures HasKey(rows, key) <==> key in Keys(Forget(rows))
  {
    var ts := Forget(rows);
    assert forall i :: 0 <= i < |rows| ==> ts[i].transfer == rows[i].transfer;
    if i :| 0 <= i < |rows| && Key(rows[i].transfer) == key {
      assert Key(ts[i].transfer) == key;
    }
  }

  /** Leaving out transfers with a taken key leaves out no key. */
  lemma {:induction false} NewKeysCover(taken: set<(Word, nat)>, xs: seq<Transfer>)
    ensures taken + KeysIn(NewKeys(taken, xs)) == taken + KeysIn(xs)
  {
    if xs != [] {
      var front, x := xs[..|xs| - 1], xs[|xs| - 1];
      NewKeysCover(taken, front);
      assert xs == front + [x];
      KeysInSnoc(front, x);
      KeysInSnoc(NewKeys(taken, front), x);
      assert NewKeys(taken, front) + [] == NewKeys(taken, front);
    }
  }

  lemma {:induction false} TagSnoc(n: nat, xs: seq<Transfer>, x: Transfer, c: bool)
    ensures Tag(n, xs + [x], c) == Tag(n, xs, c) + [StoredTransfer(n, x, c)]
  {
  }

  /** A save adds exactly the transfers with new keys, in order. */
  lemma {:induction false} InsertsNewKeys(t: Tables, n: nat, xs: seq<Transfer>, c: bool)
    ensures InsertAll(t, n, xs, c).blocks == t.blocks
    ensures Forget(InsertAll(t, n, xs, c).rows) == Forget(t.rows) + Tag(n, NewKeys(Keys(Forget(t.rows)), xs), c)
  {
    var taken := Keys(Forget(t.rows));
    if xs != [] {
      var front, x := xs[..|xs| - 1], xs[|xs| - 1];
      var mid, added := InsertAll(t, n, front, c), NewKeys(taken, front);
      InsertsNewKeys(t, n, front, c);
      KeysConcat(Forget(t.rows), Tag(n, added, c));
      KeysOfTag(n, added, c);
      NewKeysCover(taken, front);
      HasKeyIff(mid.rows, Key(x));
      ForgetSnoc(mid.rows, Row(mid.nextId, n, x, c));
      TagSnoc(n, added, x, c);
      assert added + [] == added;
    }
  }

  // The same on the columns.

  /** No row has both the transaction hash and the log index of transfer `i`, and no earlier
      transfer has. */
  ghost predicate Unmet(rows: seq<Row>, xs: seq<Transfer>, i: nat)
    requires i < |xs|
  {
    && (forall r :: 0 <= r < |rows| ==>
          rows[r].transfer.txHash != xs[i].txHash || rows[r].transfer.logIndex != xs[i].logIndex)
    && (forall j :: 0 <= j < i ==> xs[j].txHash != xs[i].txHash || xs[j].logIndex != xs[i].logIndex)
  }

  lemma {:induction false} UnmetIff(rows: seq<Row>, xs: seq<Transfer>, i: nat)
    requires i < |xs|
    ensures Unmet(rows, xs, i) <==> !HasKey(rows, Key(xs[i])) && Key(xs[i]) !in KeysIn(xs[..i])
  {
    if Key(xs[i]) in KeysIn(xs[..i]) {
      var j :| 0 <= j < i && Key(xs[..i][j]) == Key(xs[i]);
      assert xs[..i][j] == xs[j];
    }
    if Key(xs[i]) !in KeysIn(xs[..i]) {
      forall j | 0 <= j < i ensures Key(xs[j]) != Key(xs[i]) {
        assert xs[..i][j] == xs[j];
      }
    }
  }

  /** `row` is transfer `x` as it was inserted with the id `id`. */
  predicate IsRow(row: Row, id: nat, n: nat, x: Transfer, c: bool) {
    row.id == id && row.block == n && row.transfer == x && row.confirmed == c
  }

  /** The rows after a save: those before it, and then the transfers at the places `kept`, in
      order, each with the id of its place. */
  ghost predicate Adds(before: Tables, rows: seq<Row>, n: nat, xs: seq<Transfer>, c: bool, kept: seq<nat>) {
    && Increasing(kept, |xs|) && |rows| == |before.rows| + |kept| && before.rows <= rows
    && (forall k :: 0 <= k < |kept| ==>
          IsRow(rows[|before.rows| + k], before.nextId + kept[k], n, xs[kept[k]], c))
  }

  lemma {:induction false} AddsOneMore(t: Tables, rows: seq<Row>, n: nat, xs: seq<Transfer>, x: Transfer, c: bool, kept: seq<nat>)
    requires Adds(t, rows, n, xs, c, kept)
    ensures Adds(t, rows, n, xs + [x], c, kept)
    ensures Adds(t, rows + [Row(t.nextId + |xs|, n, x, c)], n, xs + [x], c, kept + [|xs|])
  {
    var more, added := xs + [x], rows + [Row(t.nextId + |xs|, n, x, c)];
    forall k | 0 <= k < |kept| ensures more[kept[k]] == xs[kept[k]] && added[|t.rows| + k] == rows[|t.rows| + k] {
    }
  }

  lemma {:induction false} InsertConflictIff(t: Tables, n: nat, xs: seq<Transfer>, x: Transfer, c: bool)
    ensures HasKey(InsertAll(t, n, xs, c).rows, Key(x)) <==> HasKey(t.rows, Key(x)) || Key(x) in KeysIn(xs)
  {
    var taken := Keys(Forget(t.rows));
    InsertsNewKeys(t, n, xs, c);
    KeysConcat(Forget(t.rows), Tag(n, NewKeys(taken, xs), c));
    KeysOfTag(n, NewKeys(taken, xs), c);
    NewKeysCover(taken, xs);
    HasKeyIff(InsertAll(t, n, xs, c).rows, Key(x));
    HasKeyIff(t.rows, Key(x));
  }

  /** Membership of the places kept, one more considered. */
  lemma {:induction false} KeptOneMore(rows: seq<Row>, xs: seq<Transfer>, x: Transfer, kept: seq<nat>, stored: bool)
    requires (forall i :: 0 <= i < |xs| ==> (i in kept <==> Unmet(rows, xs, i))) && |xs| !in kept
    requires stored <==> Unmet(rows, xs + [x], |xs|)
    ensures var all := if stored then kept + [|xs|] else kept;
      forall i :: 0 <= i < |xs + [x]| ==> (i in all <==> Unmet(rows, xs + [x], i))
  {
    var more := xs + [x];
    forall i | 0 <= i < |xs| ensures Unmet(rows, more, i) <==> Unmet(rows, xs, i) {
      assert more[i] == xs[i] && forall j :: 0 <= j < i ==> more[j] == xs[j];
    }
  }

  lemma {:induction false} InsertAllExactly(t: Tables, n: nat, xs: seq<Transfer>, c: bool) returns (kept: seq<nat>)
    ensures forall i :: 0 <= i < |xs| ==> (i in kept <==> Unmet(t.rows, xs, i))
    ensures Adds(t, InsertAll(t, n, xs, c).rows, n, xs, c, kept) && InsertAll(t, n, xs, c).nextId == t.nextId + |xs|
  {
    kept := [];
    if xs != [] {
      var front, x := xs[..|xs| - 1], xs[|xs| - 1];
      kept := InsertAllExactly(t, n, front, c);
      assert front + [x] == xs && xs[..|front|] == front;
      InsertConflictIff(t, n, front, x, c);
      UnmetIff(t.rows, xs, |front|);
      var stored := !HasKey(InsertAll(t, n, front, c).rows, Key(x));
      AddsOneMore(t, InsertAll(t, n, front, c).rows, n, front, x, c, kept);
      KeptOneMore(t.rows, front, x, kept, stored);
      if stored {
        kept := kept + [|front|];
      }
    }
  }

  /** A save upserts the block and adds, in order, exactly those of its transfers that share
      both the transaction hash and the log index with no row and with no earlier transfer of
      the save; all rows there were stay. */
  lemma {:induction false} SaveStoresExactly(t: Tables, b: Block, xs: seq<Transfer>, c: bool) returns (kept: seq<nat>)
    ensures forall i :: 0 <= i < |xs| ==> (i in kept <==> Unmet(t.rows, xs, i))
    ensures Adds(t, PgApply(t, Save(b, xs, c)).rows, b.number, xs, c, kept)
    ensures PgApply(t, Save(b, xs, c)).blocks == t.blocks[b.number := b]
  {
    var upserted := t.(blocks := t.blocks[b.number := b]);
    kept := InsertAllExactly(upserted, b.number, xs, c);
    InsertAllKeepsBlocks(upserted, b.number, xs, c);
  }

  /** In particular two transfers with different log indexes are both stored, also when they
      are of one transaction. */
  lemma {:induction false} LogIndexTellsApart(b: Block, x: Transfer, y: Transfer, c: bool)
    requires x.logIndex != y.logIndex
    ensures var rows := PgApply(NoRows(), Save(b, [x, y], c)).rows;
      |rows| == 2 && IsRow(rows[0], 0, b.number, x, c) && IsRow(rows[1], 1, b.number, y, c)
  {
    var kept := SaveStoresExactly(NoRows(), b, [x, y], c);
    assert Unmet([], [x, y], 0) && Unmet([], [x, y], 1);
    BothKept(kept);
  }

  lemma {:induction false} PlacesGrow(kept: seq<nat>, bound: nat, k: nat)
    requires Increasing(kept, bound) && k < |kept|
    ensures k <= kept[k]
  {
    if k > 0 {
      PlacesGrow(kept, bound, k - 1);
    }
  }

  lemma {:induction false} BothKept(kept: seq<nat>)
    requires Increasing(kept, 2) && 0 in kept && 1 in kept
    ensures kept == [0, 1]
  {
    PlacesGrow(kept, 2, |kept| - 1);
    var i :| 0 <= i < |kept| && kept[i] == 0;
    var j :| 0 <= j < |kept| && kept[j] == 1;
  }

  /** No transfer of `xs` has a taken key or the key of another. */
  ghost predicate AllNew(taken: set<(Word, nat)>, xs: seq<Transfer>) {
    && (forall i :: 0 <= i < |xs| ==> Key(xs[i]) !in taken)
    && (forall i, j :: 0 <= i < j < |xs| ==> Key(xs[i]) != Key(xs[j]))
  }

  lemma {:induction false} AllNewSnoc(taken: set<(Word, nat)>, xs: seq<Transfer>, x: Transfer)
    ensures AllNew(taken, xs + [x]) <==> AllNew(taken, xs) && Key(x) !in taken && Key(x) !in KeysIn(xs)
  {
    var all := xs + [x];
    assert all[|xs|] == x && forall i :: 0 <= i < |xs| ==> all[i] == xs[i];
    if AllNew(taken, xs) && Key(x) !in taken && Key(x) !in KeysIn(xs) {
      forall i, j | 0 <= i < j < |all| ensures Key(all[i]) != Key(all[j]) {
        assert Key(xs[i]) in KeysIn(xs);
      }
    }
  }

  /** What is added has new keys. */
  lemma {:induction false} AddedAreNew(taken: set<(Word, nat)>, xs: seq<Transfer>)
    ensures AllNew(taken, NewKeys(taken, xs)) && KeysIn(NewKeys(taken, xs)) <= KeysIn(xs)
  {
    if xs != [] {
      var front, x := xs[..|xs| - 1], xs[|xs| - 1];
      var added := NewKeys(taken, front);
      AddedAreNew(taken, front);
      assert xs == front + [x];
      AllNewSnoc(taken, added, x);
      KeysInSnoc(front, x);
      KeysInSnoc(added, x);
      assert added + [] == added;
    }
  }

  /** It is everything if and only if all keys are new. */
  lemma {:induction false} NewKeysAreNew(taken: set<(Word, nat)>, xs: seq<Transfer>)
    ensures AllNew(taken, NewKeys(taken, xs)) && |NewKeys(taken, xs)| <= |xs|
    ensures AllNew(taken, xs) ==> NewKeys(taken, xs) == xs
    ensures !AllNew(taken, xs) ==> |NewKeys(taken, xs)| < |xs|
  {
    AddedAreNew(taken, xs);
    if xs != [] {
      var front, x := xs[..|xs| - 1], xs[|xs| - 1];
      NewKeysAreNew(taken, front);
      assert xs == front + [x];
      AllNewSnoc(taken, front, x);
    }
  }

  predicate DifferentKeys(ts: seq<StoredTransfer>, i: nat, j: nat)
    requires i < |ts| && j < |ts|
  {
    ts[i].transfer.txHash != ts[j].transfer.txHash || ts[i].transfer.logIndex != ts[j].transfer.logIndex
  }

  /** No two transfers have the same transaction hash and log index. */
  ghost predicate Distinct(ts: seq<StoredTransfer>) {
    forall i, j :: 0 <= i < j < |ts| ==> DifferentKeys(ts, i, j)
  }

  /** The transfers that are the first with their key. */
  function FirstPerKey(ts: seq<StoredTransfer>): seq<StoredTransfer> {
    if ts == [] then []
    else
      var front, x := ts[..|ts| - 1], ts[|ts| - 1];
      FirstPerKey(front) + (if Key(x.transfer) in Keys(front) then [] else [x])
  }

  lemma {:induction false} FirstSnoc(ts: seq<StoredTransfer>, x: StoredTransfer)
    ensures FirstPerKey(ts + [x]) == FirstPerKey(ts) + (if Key(x.transfer) in Keys(ts) then [] else [x])
  {
    assert (ts + [x])[..|ts|] == ts;
  }

  lemma {:induction false} KeysSnoc(ts: seq<StoredTransfer>, x: StoredTransfer)
    ensures Keys(ts + [x]) == Keys(ts) + {Key(x.transfer)}
  {
    KeysConcat(ts, [x]);
    assert Keys([x]) == {Key(x.transfer)} by {
      assert [x][0] == x;
    }
  }

  lemma {:induction false} FirstKeys(ts: seq<StoredTransfer>)
    ensures Keys(FirstPerKey(ts)) == Keys(ts)
  {
    if ts != [] {
      var front, x := ts[..|ts| - 1], ts[|ts| - 1];
      FirstKeys(front);
      assert ts == front + [x];
      KeysSnoc(front, x);
      KeysSnoc(FirstPerKey(front), x);
      assert FirstPerKey(front) + [] == FirstPerKey(front);
    }
  }

  lemma {:induction false} DistinctSnoc(ts: seq<StoredTransfer>, x: StoredTransfer)
    ensures Distinct(ts + [x]) <==> Distinct(ts) && Key(x.transfer) !in Keys(ts)
  {
    var all := ts + [x];
    if Distinct(all) {
      forall i, j | 0 <= i < j < |ts| ensures DifferentKeys(ts, i, j) {
        assert DifferentKeys(all, i, j);
      }
      forall i | 0 <= i < |ts| ensures Key(ts[i].transfer) != Key(x.transfer) {
        assert DifferentKeys(all, i, |ts|);
      }
    }
    if Distinct(ts) && Key(x.transfer) !in Keys(ts) {
      forall i, j | 0 <= i < j < |all| ensures DifferentKeys(all, i, j) {
        assert Key(ts[i].transfer) in Keys(ts);
        assert j < |ts| ==> DifferentKeys(ts, i, j);
      }
    }
  }

  /** Nothing is left out if and only if the keys are distinct. */
  lemma {:induction false} FirstIsAllIff(ts: seq<StoredTransfer>)
    ensures |FirstPerKey(ts)| <= |ts|
    ensures Distinct(ts) ==> FirstPerKey(ts) == ts
    ensures !Distinct(ts) ==> |FirstPerKey(ts)| < |ts|
  {
    if ts != [] {
      var front, x := ts[..|ts| - 1], ts[|ts| - 1];
      FirstIsAllIff(front);
      assert ts == front + [x];
      DistinctSnoc(front, x);
    }
  }

  /** Every transfer left is one of those given. */
  lemma {:induction false} FirstAreMembers(ts: seq<StoredTransfer>)
    ensures forall x :: x in FirstPerKey(ts) ==> x in ts
  {
    if ts != [] {
      FirstAreMembers(ts[..|ts| - 1]);
    }
  }

  /** Leaving out repeated keys commutes with appending a block's transfers. */
  lemma {:induction false} FirstOfAppended(ts: seq<StoredTransfer>, n: nat, xs: seq<Transfer>, c: bool)
    ensures FirstPerKey(ts + Tag(n, xs, c)) == FirstPerKey(ts) + Tag(n, NewKeys(Keys(ts), xs), c)
  {
    if xs == [] {
      assert ts + Tag(n, xs, c) == ts;
      assert FirstPerKey(ts) + Tag(n, [], c) == FirstPerKey(ts);
    } else {
      var front, x := xs[..|xs| - 1], xs[|xs| - 1];
      FirstOfAppended(ts, n, front, c);
      assert xs == front + [x];
      FirstOfOneMore(ts, n, front, x, c);
      TagSnoc(n, NewKeys(Keys(ts), front), x, c);
      assert NewKeys(Keys(ts), front) + [] == NewKeys(Keys(ts), front);
    }
  }

  lemma {:induction false} FirstOfOneMore(ts: seq<StoredTransfer>, n: nat, xs: seq<Transfer>, x: Transfer, c: bool)
    ensures FirstPerKey(ts + Tag(n, xs + [x], c))
         == FirstPerKey(ts + Tag(n, xs, c)) + (if Key(x) in Keys(ts) || Key(x) in KeysIn(xs) then [] else [StoredTransfer(n, x, c)])
  {
    var before, y := ts + Tag(n, xs, c), StoredTransfer(n, x, c);
    TagSnoc(n, xs, x, c);
    assert ts + Tag(n, xs + [x], c) == before + [y];
    FirstSnoc(before, y);
    KeysConcat(ts, Tag(n, xs, c));
    KeysOfTag(n, xs, c);
  }

  /** ... and with promoting. */
  lemma {:induction false} FirstOfPromoted(ts: seq<StoredTransfer>, n: nat)
    ensures Keys(Promote(ts, n)) == Keys(ts)
    ensures FirstPerKey(Promote(ts, n)) == Promote(FirstPerKey(ts), n)
  {
    if ts != [] {
      var front, x := ts[..|ts| - 1], ts[|ts| - 1];
      var y := Promote([x], n)[0];
      FirstOfPromoted(front, n);
      assert ts == front + [x];
      assert Promote(ts, n) == Promote(front, n) + [y];
      FirstSnoc(Promote(front, n), y);
      KeysSnoc(front, x);
      KeysSnoc(Promote(front, n), y);
      var first := FirstPerKey(front);
      assert Promote(first + [x], n) == Promote(first, n) + [y];
    }
  }
}
