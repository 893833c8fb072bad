/** Headers, hashes, indexed blocks, and canonical chains as a node serves them. */
module Chain {
  import opened Bytes

  /** A block hash. A digest is a symbolic term over the header it covers, so hashing is
      injective by construction; `Plain` is any other 32-byte value a node may send. */
  datatype Hash = Digest(header: Header) | Plain(word: Word)

  datatype Header = Header(number: nat, parentHash: Hash, time: nat, extra: seq<Byte>)

  function HashOf(h: Header): Hash {
    Digest(h)
  }

  datatype Block = Block(number: nat, hash: Hash, parentHash: Hash, time: nat)

  /** The index entry for header `h` fetched at height `n`. */
  function BlockOf(n: nat, h: Header): Block {
    Block(n, HashOf(h), h.parentHash, h.time)
  }

  /** One canonical chain from genesis to its head. */
  type View = seq<Header>

  predicate BuildsOnParent(v: View, i: nat) {
    0 < i < |v| ==> v[i].parentHash == HashOf(v[i - 1])
  }

  ghost predicate Linked(v: View) {
    && |v| > 0
    && (forall i :: 0 <= i < |v| ==> v[i].number == i)
    && (forall i :: 0 < i < |v| ==> BuildsOnParent(v, i))
  }

  /** The blocks of `v` from `start` to its head. */
  ghost function Canon(v: View, start: nat): map<nat, Block> {
    map n | start <= n < |v| :: BlockOf(n, v[n])
  }
}
