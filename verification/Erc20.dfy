/** Decoding of ERC-20 Transfer logs. */
module Erc20 {
  import opened Options
  import opened Bytes

  datatype Log = Log(address: Address, topics: seq<Word>, data: seq<Byte>, txHash: Word, index: nat)

  datatype Transfer = Transfer(token: Address, from: Address, to: Address, value: nat,
                               txHash: Word, logIndex: nat)

  /** A topic read as an address keeps its last 20 bytes and drops the rest. */
  function ToAddress(topic: Word): Address {
    topic[12..]
  }

  function Decode(topicID: Word, log: Log): Option<Transfer> {
    if |log.topics| != 3 || log.topics[0] != topicID then None
    else if |log.data| < 32 then None
    else Some(Transfer(log.address, ToAddress(log.topics[1]), ToAddress(log.topics[2]),
                       ToNat(log.data[..32]), log.txHash, log.index))
  }

  predicate WellFormed(topicID: Word, log: Log) {
    |log.topics| == 3 && log.topics[0] == topicID && |log.data| >= 32
  }

  /** An address left-padded with zeros to a topic. */
  function Pad(a: Address): Word {
    seq(12, _ => 0) + a
  }

  /** The log that the Transfer event of EIP-20 emits for `t`. */
  function Encode(topicID: Word, t: Transfer): Log
    requires t.value < Pow256(32)
  {
    Log(t.token, [topicID, Pad(t.from), Pad(t.to)], FromNat(t.value, 32), t.txHash, t.logIndex)
  }

  /** A log as a contract following the ABI would emit it: padding zero, one data word. */
  predicate Canonical(topicID: Word, log: Log) {
    && WellFormed(topicID, log)
    && log.topics[1][..12] == seq(12, _ => 0)
    && log.topics[2][..12] == seq(12, _ => 0)
    && |log.data| == 32
  }

  lemma {:induction false} DecodeUndoesEncode(topicID: Word, t: Transfer)
    requires t.value < Pow256(32)
    ensures Decode(topicID, Encode(topicID, t)) == Some(t)
  {
    ToNatOfFromNat(t.value, 32);
    var data := FromNat(t.value, 32);
    assert data[..32] == data;
  }

  /** Decoding loses nothing exactly on canonical logs, and accepts every well-formed log. */
  lemma {:induction false} EncodeUndoesDecodeIffCanonical(topicID: Word, log: Log)
    ensures Decode(topicID, log).Some? <==> WellFormed(topicID, log)
    ensures Decode(topicID, log).Some? ==>
      && Decode(topicID, log).value.value < Pow256(32)
      && (Encode(topicID, Decode(topicID, log).value) == log <==> Canonical(topicID, log))
  {
    if WellFormed(topicID, log) {
      var t := Decode(topicID, log).value;
      FromNatOfToNat(log.data[..32]);
      var back := Encode(topicID, t);
      assert back.topics[1][..12] == seq(12, _ => 0) && back.topics[2][..12] == seq(12, _ => 0);
      if Canonical(topicID, log) {
        assert log.data[..32] == log.data;
        assert Pad(t.from) == log.topics[1] && Pad(t.to) == log.topics[2];
        assert log.topics == [topicID, log.topics[1], log.topics[2]];
      }
    }
  }

  /** Of every accepted log, canonical or not, the token is the emitter, the addresses are the
      last 20 bytes of their topics, and the value is that of the first data word. */
  lemma {:induction false} DecodeReadsFields(topicID: Word, log: Log)
    requires WellFormed(topicID, log)
    ensures var t := Decode(topicID, log).value;
      && t.token == log.address && t.txHash == log.txHash && t.logIndex == log.index
      && (exists pad: seq<Byte> :: |pad| == 12 && log.topics[1] == pad + t.from)
      && (exists pad: seq<Byte> :: |pad| == 12 && log.topics[2] == pad + t.to)
      && (exists more: seq<Byte> :: t.value < Pow256(32) && log.data == FromNat(t.value, 32) + more)
  {
    var t := Decode(topicID, log).value;
    FromNatOfToNat(log.data[..32]);
    assert log.topics[1] == log.topics[1][..12] + t.from;
    assert log.topics[2] == log.topics[2][..12] + t.to;
    assert log.data == FromNat(t.value, 32) + log.data[32..];
  }

  /** What fetchTransfers builds: the decoded transfers, in log order. */
  function DecodeAll(topicID: Word, logs: seq<Log>): seq<Transfer> {
    if logs == [] then []
    else
      var front := DecodeAll(topicID, logs[..|logs| - 1]);
      match Decode(topicID, logs[|logs| - 1])
      case Some(t) => front + [t]
      case None => front
  }

  /** The positions of the well-formed logs. */
  function Positions(topicID: Word, logs: seq<Log>): seq<nat> {
    if logs == [] then []
    else
      var front := Positions(topicID, logs[..|logs| - 1]);
      if WellFormed(topicID, logs[|logs| - 1]) then front + [|logs| - 1] else front
  }

  ghost predicate Increasing(ps: seq<nat>, bound: nat) {
    && (forall k :: 0 <= k < |ps| ==> ps[k] < bound)
    && (forall k, l :: 0 <= k < l < |ps| ==> ps[k] < ps[l])
  }

  /** The positions of the well-formed logs, each once, in order. */
  lemma {:induction false} PositionsAreExact(topicID: Word, logs: seq<Log>)
    ensures Increasing(Positions(topicID, logs), |logs|)
    ensures forall i :: 0 <= i < |logs| ==> (WellFormed(topicID, logs[i]) <==> i in Positions(topicID, logs))
  {
    if logs != [] {
      var front := logs[..|logs| - 1];
      PositionsAreExact(topicID, front);
      var ps := Positions(topicID, front);
      forall i | 0 <= i < |logs| ensures WellFormed(topicID, logs[i]) <==> i in Positions(topicID, logs) {
        if i < |front| {
          assert front[i] == logs[i];
        } else {
          assert i !in ps;
        }
      }
    }
  }

  /** Exactly the well-formed logs are decoded, each once, in log order. */
  lemma {:induction false} DecodeAllIsExact(topicID: Word, logs: seq<Log>)
    ensures var ps := Positions(topicID, logs);
      && Increasing(ps, |logs|)
      && (forall i :: 0 <= i < |logs| ==> (WellFormed(topicID, logs[i]) <==> i in ps))
      && |DecodeAll(topicID, logs)| == |ps|
      && (forall k :: 0 <= k < |ps| ==> Decode(topicID, logs[ps[k]]) == Some(DecodeAll(topicID, logs)[k]))
  {
    PositionsAreExact(topicID, logs);
    if logs != [] {
      DecodeAllIsExact(topicID, logs[..|logs| - 1]);
    }
  }

  /** The loop of fetchTransfers over the logs the backend returned. */
  method FetchTransfers(topicID: Word, logs: seq<Log>) returns (out: seq<Transfer>)
    ensures out == DecodeAll(topicID, logs)
  {
    out := [];
    for i := 0 to |logs|
      invariant out == DecodeAll(topicID, logs[..i])
    {
      assert logs[..i + 1][..i] == logs[..i];
      match Decode(topicID, logs[i]) {
        case Some(t) => out := out + [t];
        case None =>
      }
    }
    assert logs[..|logs|] == logs;
  }
}
