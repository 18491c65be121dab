/** The SD card driver: whole and partial block reads over a byte stream, and the block
    write (Modules/SD/Sd2Card.cpp:108-137, 338-461, 556-618).

    The class holds both ends of the wire. The card's end is the block store and the block
    it is sending; the driver's end is what `Sd2Card` remembers. The driver never sees the
    card's fields: it only clocks bytes with `SpiRec`. */
module SdCard {
  import opened Bytes

  class Sd2Card {
    // The card: its blocks, and the block read that was started last.
    var blocks: seq<Block>
    var sending: bool
    var source: nat
    var sent: nat
    var crc: seq<byte>
    /** What was clocked from the card since it began to send that block. */
    ghost var wire: seq<byte>
    /** False once a command was sent while the card had something left to send. */
    ghost var intact: bool
    /** How often the card refused a request that it could have met, or failed to meet it. */
    ghost var faults: nat

    // The driver.
    var selected: bool
    var openBlock: nat
    var openOffset: nat
    var inBlock: bool
    var partialBlockRead: bool

    /** The driver's idea of the stream is the card's: a block it is in the middle of is
        still being sent and as many bytes were clocked as the driver thinks; otherwise the
        card has nothing left to send. */
    ghost predicate Valid()
      reads this
    {
      && InStep()
      && (inBlock ==> openOffset < BLOCK_SIZE && source == openBlock < |blocks|)
    }

    /** The part of it that also holds when all 512 data bytes were just clocked. */
    ghost predicate InStep()
      reads this
    {
      && intact
      && (sending <==> inBlock)
      && (inBlock ==> selected && sent == openOffset <= BLOCK_SIZE && IsSending() && wire == Frame()[..sent])
    }

    /** All that the card puts on the wire for a block: its bytes, and two bytes of CRC. */
    ghost function Frame(): seq<byte>
      requires source < |blocks|
      reads this
    {
      blocks[source] + crc
    }

    ghost predicate IsSending()
      reads this
      ensures IsSending() ==> source < |blocks| && |Frame()| == 514
    {
      source < |blocks| && |crc| == 2
    }

    /** In the middle of a block according to the driver, but the card is deselected. */
    ghost predicate Deaf()
      reads this
    {
      inBlock && !selected && sending && sent < BLOCK_SIZE && intact
    }

    constructor (card: seq<Block>)
      ensures Valid() && blocks == card && !partialBlockRead && !inBlock && !selected
    {
      blocks := card;
      sending, source, sent, crc, wire, intact, faults := false, 0, 0, [], [], true, 0;
      selected, openBlock, openOffset, inBlock, partialBlockRead := false, 0, 0, false, false;
    }

    /** Clock one byte. A card that is selected goes on with its block, and stops after the last
        byte of the CRC; one that is not, or has nothing to send, leaves the line high. */
    method SpiRec() returns (x: byte)
      modifies this`sent, this`sending, this`wire
      ensures old(selected && sending && IsSending()) && old(sent) < |Frame()| ==>
                x == Frame()[old(sent)] && sent == old(sent) + 1 && (sending <==> sent < |Frame()|)
      ensures !(selected && old(sending)) ==> sent == old(sent) && sending == old(sending) && x == 0xFF
      ensures wire == if selected then old(wire) + [x] else old(wire)
    {
      x := 0xFF;
      if selected && sending {
        if sent < BLOCK_SIZE && source < |blocks| {
          x := blocks[source][sent];
        } else if BLOCK_SIZE <= sent < BLOCK_SIZE + |crc| {
          x := crc[sent - BLOCK_SIZE];
        }
        sent := sent + 1;
        sending := sent < BLOCK_SIZE + |crc|;
      }
      if selected {
        wire := wire + [x];
      }
    }

    /** Skip the rest of a block and its CRC. Then the card has sent all of it, and nothing more
        was clocked. */
    method ReadEnd()
      modifies this`sent, this`sending, this`wire, this`openOffset, this`selected, this`inBlock
      ensures !inBlock && (old(inBlock) ==> !selected) && (!old(inBlock) ==> selected == old(selected))
      ensures old(InStep()) ==> Valid() && !sending
      ensures old(InStep()) && old(inBlock) ==> sent == BLOCK_SIZE + 2 && IsSending() && wire == blocks[source] + crc
      ensures old(Deaf()) ==> sent == old(sent) && sending
      ensures old(inBlock) && old(openOffset) <= 514 ==> openOffset == 515
    {
      if inBlock {
        while openOffset < 514
          invariant old(InStep()) ==>
                      && selected && intact && IsSending() && sent == openOffset <= |Frame()|
                      && (sending <==> sent < |Frame()|) && wire == Frame()[..sent]
          invariant old(Deaf()) ==> !selected && sending && sent == old(sent)
          invariant old(openOffset) <= 514 ==> openOffset <= 514
          decreases 514 - openOffset
        {
          var _ := SpiRec();
          openOffset := openOffset + 1;
        }
        openOffset := openOffset + 1;
        selected := false;
        inBlock := false;
      }
    }

    /** Send a command, after ending a block read that is under way. The waiting and the
        response are the card's: it may refuse any command. */
    method CardCommand() returns (accepted: bool)
      modifies this`sent, this`openOffset, this`selected, this`inBlock, this`sending, this`wire
      modifies this`intact, this`faults
      ensures !inBlock && !sending && selected
      ensures old(InStep()) ==> Valid()
      ensures old(Deaf()) ==> !intact
      ensures faults >= old(faults) && (!accepted ==> faults > old(faults))
    {
      ReadEnd();
      selected := true;
      intact := intact && !sending;
      sending := false;
      accepted := *;
      faults := if accepted then faults else faults + 1;
    }

    /** Wait for the start of the block the card was asked for. */
    method WaitStartBlock(block: nat) returns (started: bool)
      requires !inBlock && !sending && selected
      modifies this`sending, this`source, this`sent, this`crc, this`wire, this`selected, this`faults
      ensures started ==>
                selected && sending && source == block < |blocks| && sent == 0 && IsSending() && wire == []
      ensures !started ==> !sending && !selected
      ensures faults >= old(faults) && (!started ==> faults > old(faults) || block >= |blocks|)
    {
      started := *;
      faults := if started then faults else faults + 1;
      if started && block < |blocks| {
        var high: byte, low: byte := *, *;
        sending, source, sent, crc, wire := true, block, 0, [high, low], [];
      } else {
        started, selected := false, false;
      }
    }

    /** Make the card send a block from its start. */
    method StartBlock(block: nat) returns (ok: bool)
      requires Valid() || Deaf()
      modifies this`openBlock, this`sent, this`openOffset, this`selected, this`inBlock, this`sending, this`source
      modifies this`crc, this`wire, this`intact, this`faults
      ensures old(Valid()) ==> Valid()
      ensures old(Deaf()) ==> !intact
      ensures (ok <==> inBlock) && (ok <==> selected)
      ensures ok ==> sending && sent == openOffset == 0 && source == openBlock == block < |blocks|
      ensures faults >= old(faults) && (!ok ==> faults > old(faults) || block >= |blocks|)
    {
      openBlock := block;
      ok := CardCommand();
      if !ok {
        selected := false;
        return;
      }
      ok := WaitStartBlock(block);
      if ok {
        openOffset := 0;
        inBlock := true;
      }
    }

    /** Clock the bytes before `offset`. */
    method Skip(offset: nat)
      requires inBlock && openOffset <= offset < BLOCK_SIZE
      modifies this`sent, this`sending, this`wire, this`openOffset
      ensures openOffset == offset
      ensures old(Valid()) ==> Valid()
      ensures old(Deaf()) ==> sent == old(sent) && sending
    {
      while openOffset < offset
        invariant openOffset <= offset
        invariant old(Valid()) ==> sent == openOffset && sending && wire == Frame()[..sent]
        invariant old(Deaf()) ==> sent == old(sent) && sending
        decreases offset - openOffset
      {
        var _ := SpiRec();
        openOffset := openOffset + 1;
      }
    }

    /** Skip the bytes before `offset`, then clock `count` bytes into `dst[at..]`. */
    method Transfer(offset: nat, count: nat, dst: array<byte>, at: nat)
      requires inBlock && openOffset <= offset && 0 < count && offset + count <= BLOCK_SIZE && at + count <= dst.Length
      modifies this`sent, this`sending, this`wire, this`openOffset, dst
      ensures openOffset == offset + count
      ensures old(Valid()) ==> InStep() && dst[at..at + count] == blocks[openBlock][offset..offset + count]
      ensures old(Deaf()) ==> sent == old(sent) && sending && forall i :: at <= i < at + count ==> dst[i] == 0xFF
      ensures forall i :: 0 <= i < dst.Length && !(at <= i < at + count) ==> dst[i] == old(dst[i])
    {
      ghost var was := dst[..];
      Skip(offset);
      var i := 0;
      while i < count
        invariant i <= count && openOffset == offset
        invariant old(Valid()) ==> sent == offset + i && sending && wire == Frame()[..sent]
        invariant old(Valid()) ==> forall j :: at <= j < at + i ==> dst[j] == blocks[openBlock][offset + (j - at)]
        invariant old(Deaf()) ==> sent == old(sent) && sending && forall j :: at <= j < at + i ==> dst[j] == 0xFF
        invariant forall j :: 0 <= j < dst.Length && !(at <= j < at + count) ==> dst[j] == was[j]
      {
        var x := SpiRec();
        assert old(Valid()) ==> x == blocks[openBlock][offset + i];
        dst[at + i] := x;
        i := i + 1;
      }
      openOffset := openOffset + count;
      if old(Valid()) {
        assert dst[at..at + count] == blocks[openBlock][offset..offset + count];
      }
    }

    /** Read `count` bytes of a block from byte `offset` on, to `dst[at..]`. */
    method ReadData(block: nat, offset: nat, count: nat, dst: array<byte>, at: nat) returns (ok: bool)
      requires at + count <= dst.Length
      requires Valid() || Deaf()
      modifies this`openBlock, this`sent, this`openOffset, this`selected, this`inBlock, this`sending, this`source
      modifies this`crc, this`wire, this`intact, this`faults, dst
      // The stream stays in step unless an overlong request hits a block half read.
      ensures old(Valid()) ==> (Valid() <==> !(old(inBlock) && count > 0 && offset + count > BLOCK_SIZE))
      ensures old(Valid()) && !Valid() ==> Deaf() && openOffset == old(openOffset) && openBlock == old(openBlock)
      ensures count > 0 && offset + count > BLOCK_SIZE ==> !ok
      ensures old(Valid()) && ok && count > 0 ==>
                block < |blocks| && dst[at..at + count] == blocks[block][offset..offset + count]
      ensures ok && count > 0 && !partialBlockRead ==> !inBlock && !selected
      ensures old(Valid()) && ok && partialBlockRead && 0 < count && offset + count == BLOCK_SIZE ==>
                !inBlock && !selected
      ensures old(Valid()) && ok && partialBlockRead && 0 < count && offset + count < BLOCK_SIZE ==>
                inBlock && openBlock == block && openOffset == offset + count
      // A deselected card reads as 0xFF, whatever the block holds.
      ensures old(Deaf()) && count > 0 && offset + count <= BLOCK_SIZE && block == old(openBlock)
              && offset >= old(openOffset) ==>
                ok && !Valid() && forall i :: at <= i < at + count ==> dst[i] == 0xFF
      // Asking it for another block cuts the one under way short.
      ensures old(Deaf()) && count > 0 && offset + count <= BLOCK_SIZE && block != old(openBlock) ==> !intact
      ensures forall i :: 0 <= i < dst.Length && !(at <= i < at + count) ==> dst[i] == old(dst[i])
      ensures !ok ==> !selected && dst[..] == old(dst[..])
      ensures count == 0 ==> ok && unchanged(this)
      ensures faults >= old(faults)
      ensures !ok ==> faults > old(faults) || offset + count > BLOCK_SIZE || block >= |blocks|
    {
      if count == 0 {
        return true;
      }
      if count + offset > BLOCK_SIZE {
        selected := false;
        return false;
      }
      if !inBlock || block != openBlock || offset < openOffset {
        ok := StartBlock(block);
        if !ok {
          return;
        }
      }
      Transfer(offset, count, dst, at);
      if !partialBlockRead || openOffset >= BLOCK_SIZE {
        ReadEnd();
      }
      return true;
    }

    /** Read a whole block. */
    method ReadBlock(block: nat, dst: array<byte>) returns (ok: bool)
      requires Valid() && dst.Length == BLOCK_SIZE
      modifies this`openBlock, this`sent, this`openOffset, this`selected, this`inBlock, this`sending, this`source
      modifies this`crc, this`wire, this`intact, this`faults, dst
      ensures Valid()
      ensures ok ==> block < |blocks| && dst[..] == blocks[block] && !inBlock && !selected
      ensures !ok ==> !selected && dst[..] == old(dst[..])
      ensures faults >= old(faults) && (!ok ==> faults > old(faults) || block >= |blocks|)
    {
      ok := ReadData(block, 0, BLOCK_SIZE, dst, 0);
      if ok {
        assert dst[..] == dst[0..0 + BLOCK_SIZE] && blocks[block] == blocks[block][0..0 + BLOCK_SIZE];
      }
    }

    /** End a partial read and choose the mode of the next ones. */
    method PartialBlockRead(value: bool)
      requires Valid()
      modifies this`sent, this`sending, this`wire, this`openOffset, this`selected, this`inBlock
      modifies this`partialBlockRead
      ensures Valid() && !inBlock && !sending && partialBlockRead == value
    {
      ReadEnd();
      partialBlockRead := value;
    }

    /** Write a block. A write that fails may have changed that block, and only that one:
        the card may refuse the data, or report an error after it stored them. Block 0 is
        protected, and a number outside the card is refused. */
    method WriteBlock(blockNumber: nat, src: Block) returns (ok: bool)
      requires Valid()
      modifies this`blocks, this`sent, this`openOffset, this`selected, this`inBlock
      modifies this`sending, this`wire, this`intact, this`faults
      ensures Valid() <==> !(blockNumber == 0 && old(inBlock))
      ensures |blocks| == |old(blocks)| && !selected && (blockNumber > 0 ==> !inBlock)
      ensures ok ==> 0 < blockNumber < |blocks| && blocks == old(blocks)[blockNumber := src]
      ensures forall b :: 0 <= b < |blocks| && b != blockNumber ==> blocks[b] == old(blocks)[b]
      ensures blockNumber == 0 ==>
        && !ok && blocks == old(blocks) && openBlock == old(openBlock) && sent == old(sent) && wire == old(wire)
        && openOffset == old(openOffset) && inBlock == old(inBlock) && sending == old(sending) && intact == old(intact)
      ensures faults >= old(faults) && (!ok ==> faults > old(faults) || blockNumber == 0 || blockNumber >= |blocks|)
    {
      if blockNumber == 0 {
        selected := false;
        return false;
      }
      var accepted := CardCommand();
      if !accepted || blockNumber >= |blocks| {
        selected := false;
        return false;
      }
      ok := ReceiveData(blockNumber, src);
      selected := false;
    }

    /** The card takes the data, programs them, and answers the status command. */
    method ReceiveData(blockNumber: nat, src: Block) returns (ok: bool)
      requires blockNumber < |blocks|
      modifies this`blocks, this`faults
      ensures |blocks| == |old(blocks)|
      ensures ok ==> blocks == old(blocks)[blockNumber := src]
      ensures forall b :: 0 <= b < |blocks| && b != blockNumber ==> blocks[b] == old(blocks)[b]
      ensures faults >= old(faults) && (!ok ==> faults > old(faults))
    {
      var left: Block :| |left| == BLOCK_SIZE;
      ok := *;
      faults := if ok then faults else faults + 1;
      blocks := blocks[blockNumber := if ok then src else left];
    }
  }

  /** So does a write to block 0, which is refused: a partial read that is under way goes on with
      bytes that are all 0xFF. */
  method ProtectedWriteGoesDeaf(card: Sd2Card, block: nat, src: Block, dst: array<byte>)
      returns (first: bool, second: bool, third: bool)
    requires card.Valid() && card.partialBlockRead && dst.Length >= 2
    modifies card, dst
    ensures !second
    ensures first ==> third && dst[1] == 0xFF && !card.Valid()
  {
    first := card.ReadData(block, 0, 1, dst, 0);
    second := card.WriteBlock(0, src);
    third := false;
    if first {
      third := card.ReadData(block, 1, 1, dst, 1);
    }
  }

  /** An overlong request in the middle of a partial read deselects the card without
      ending the read. The next request for the same block then "succeeds" with bytes
      that are all 0xFF, whatever the block holds. */
  method OverlongRequestGoesDeaf(card: Sd2Card, block: nat, dst: array<byte>)
      returns (first: bool, second: bool, third: bool)
    requires card.Valid() && card.partialBlockRead && dst.Length >= BLOCK_SIZE + 1
    modifies card, dst
    ensures !second
    ensures first ==> third && dst[0] == 0xFF && !card.Valid()
  {
    first := card.ReadData(block, 0, 1, dst, 0);
    second := card.ReadData(block, 0, BLOCK_SIZE + 1, dst, 0);
    third := false;
    if first {
      third := card.ReadData(block, 1, 1, dst, 0);
    }
  }
}
