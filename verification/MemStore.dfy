/** The in-memory Store: a map of blocks and a growable buffer of transfers, updated in place. */
module MemStores {
  import opened Options
  import opened Chain
  import opened Erc20
  import opened StoreModel

  class MemStore {
    var blocks: map<nat, Block>
    var slots: array<StoredTransfer>
    var count: nat

    ghost predicate Valid()
      reads this
    {
      count <= slots.Length
    }

    ghost function Contents(): State
      requires Valid()
      reads this, slots
    {
      State(blocks, slots[..count])
    }

    constructor ()
      ensures Valid() && fresh(slots)
      ensures Contents() == Empty()
    {
      blocks := map[];
      slots := new StoredTransfer[0];
      count := 0;
    }

    /** Appends in place while there is room, and moves to a larger buffer otherwise. */
    method Append(t: StoredTransfer)
      requires Valid()
      modifies this`slots, this`count, slots
      ensures Valid()
      ensures slots == old(slots) || fresh(slots)
      ensures Contents() == State(old(blocks), old(Contents()).transfers + [t])
    {
      if count == slots.Length {
        var larger := new StoredTransfer[2 * count + 1](_ => t);
        forall i | 0 <= i < count {
          larger[i] := slots[i];
        }
        slots := larger;
      }
      slots[count] := t;
      count := count + 1;
    }

    method SaveBlock(b: Block, transfers: seq<Transfer>, confirmed: bool)
      requires Valid()
      modifies this, slots
      ensures Valid()
      ensures slots == old(slots) || fresh(slots)
      ensures Contents() == Apply(old(Contents()), Save(b, transfers, confirmed))
    {
      blocks := blocks[b.number := b];
      ghost var tagged := Tag(b.number, transfers, confirmed);
      for i := 0 to |transfers|
        invariant Valid()
        invariant slots == old(slots) || fresh(slots)
        invariant blocks == old(blocks)[b.number := b]
        invariant Contents().transfers == old(Contents()).transfers + tagged[..i]
      {
        Append(StoredTransfer(b.number, transfers[i], confirmed));
        assert tagged[..i + 1] == tagged[..i] + [tagged[i]];
      }
      assert tagged[..|transfers|] == tagged;
    }

    method LastBlock() returns (last: Option<Block>)
      requires Valid()
      ensures last.None? <==> blocks == map[]
      ensures last.Some? ==> last.value == blocks[MaxKey(blocks.Keys)]
    {
      if |blocks| == 0 {
        return None;
      }
      var rest := blocks.Keys;
      var top :| top in rest;
      while rest != {}
        invariant rest <= blocks.Keys && top in blocks
        invariant forall k :: k in blocks && k !in rest ==> k <= top
      {
        var n :| n in rest;
        if n > top {
          top := n;
        }
        rest := rest - {n};
      }
      assert top in blocks.Keys && MaxKey(blocks.Keys) in blocks;
      return Some(blocks[top]);
    }

    method BlockByNumber(number: nat) returns (b: Option<Block>)
      ensures b == if number in blocks then Some(blocks[number]) else None
    {
      b := if number in blocks then Some(blocks[number]) else None;
    }

    /** Deletes blocks while iterating over the map, then compacts the transfers in place. */
    method DeleteFrom(number: nat)
      requires Valid()
      modifies this`blocks, this`count, slots
      ensures Valid()
      ensures Contents() == Apply(old(Contents()), Delete(number))
    {
      var rest := blocks.Keys;
      while rest != {}
        modifies this`blocks
        invariant rest <= old(blocks).Keys
        invariant blocks == map k | k in old(blocks) && (k in rest || k < number) :: old(blocks)[k]
      {
        var n :| n in rest;
        if n >= number {
          blocks := blocks - {n};
        }
        rest := rest - {n};
      }

      assert blocks == BlocksBelow(old(blocks), number);
      ghost var ts := slots[..count];
      assert ts == old(Contents()).transfers;
      Compact(number);
      assert Contents() == State(BlocksBelow(old(blocks), number), Below(ts, number));
    }

    /** Moves the transfers below `number` to the front of the buffer they are read from. */
    method Compact(number: nat)
      requires Valid()
      modifies this`count, slots
      ensures Valid()
      ensures slots[..count] == Below(old(slots[..count]), number)
    {
      ghost var was := slots[..count];
      var kept := 0;
      for i := 0 to count
        modifies slots
        invariant kept <= i
        invariant slots[..kept] == Below(was[..i], number)
        invariant forall j :: i <= j < count ==> slots[j] == was[j]
      {
        assert was[..i + 1][..i] == was[..i];
        if slots[i].block < number {
          slots[kept] := slots[i];
          kept := kept + 1;
        }
      }
      assert was[..count] == was;
      count := kept;
    }

    method ConfirmThrough(number: nat)
      requires Valid()
      modifies slots
      ensures Contents() == Apply(old(Contents()), Confirm(number))
    {
      for i := 0 to count
        invariant forall j :: 0 <= j < i ==> slots[j] == Promote(old(slots[..count]), number)[j]
        invariant forall j :: i <= j < count ==> slots[j] == old(slots[j])
      {
        if slots[i].block <= number {
          slots[i] := slots[i].(confirmed := true);
        }
      }
    }
  }
}
