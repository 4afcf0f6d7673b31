/** The session's read and write pump: each handler that the two service threads run is one step. */
module Sessions {
  import opened Words
  import opened Seals
  import opened Endian
  import opened Blocks
  import opened Views
  import opened AsioBuffers

  const WRITES: nat := 1

  class Session {
    const readBuffer: AsioBuffer
    const writeBuffer: AsioBuffer
    const readHighWaterMask: nat

    var reading: bool
    var writing: bool
    var pendingWriteLen: nat
    var workReadCount: nat
    var handleCount: nat

    /** The views that the socket has while a read or a write is in flight. */
    var incoming: seq<View>
    var outgoing: seq<View>

    /** Reads and writes in flight, and calls of `write` posted and not yet run. */
    ghost var readsInFlight: nat
    ghost var writesInFlight: nat
    ghost var postedWrites: nat

    /** All bytes appended by `write` and all bytes that the socket has sent; all bytes that have
        arrived and all bytes that the handlers have taken. */
    ghost var appended: seq<byte>
    ghost var sent: seq<byte>
    ghost var arrived: seq<byte>
    ghost var taken: seq<byte>

    /** The bytes sent and the bytes buffered are the bytes appended, in order; one write at most is in
        flight, for the front of the buffer. */
    ghost predicate WriteShape()
      reads this`writing, this`pendingWriteLen, this`outgoing, this`writesInFlight,
            this`appended, this`sent, writeBuffer, writeBuffer.blocks
    {
      && writeBuffer.Valid() && pendingWriteLen == |writeBuffer.contents|
      && sent + writeBuffer.contents == appended
      && writesInFlight == One(writing)
      && (writing ==> writeBuffer.active && 0 < Lengths(outgoing, |outgoing|) <= |writeBuffer.contents|
                      && Tiles(writeBuffer.blocks, writeBuffer.read, outgoing) && |outgoing| <= |writeBuffer.Held()|)
    }

    /** Besides, bytes that wait have a write in flight or posted. */
    ghost predicate WriteValid()
      reads this`writing, this`pendingWriteLen, this`outgoing, this`writesInFlight, this`postedWrites,
            this`appended, this`sent, writeBuffer, writeBuffer.blocks
    {
      WriteSeal().Kept?
    }

    ghost function WriteSeal(): Seal
      reads this`writing, this`pendingWriteLen, this`outgoing, this`writesInFlight, this`postedWrites,
            this`appended, this`sent, writeBuffer, writeBuffer.blocks
    {
      if forall k: nat {:trigger Key(WRITES, k)} :: Key(WRITES, k) ==>
        WriteShape() && (pendingWriteLen > 0 ==> writing || postedWrites > 0)
      then Kept else Broken
    }

    /** One read is in flight, for the tail of the buffer, or its token is parked in the callback of a
        buffer that has reached the mark. */
    ghost predicate ReadValid()
      reads this`reading, this`incoming, this`readsInFlight, this`arrived, this`taken, readBuffer, readBuffer.blocks
    {
      && readBuffer.Valid() && arrived == taken + readBuffer.contents
      && readsInFlight == One(reading)
      && (reading ==> readBuffer.notify == Unset && Onwards(readBuffer.blocks, readBuffer.write, incoming))
      && (!reading ==> readBuffer.notify == Below(readHighWaterMask))
      && (reading <==> BelowMark())
    }

    ghost predicate BelowMark()
      reads readBuffer
    {
      readHighWaterMask == 0 || |readBuffer.contents| < readHighWaterMask
    }

    ghost predicate Valid()
      reads this, readBuffer, readBuffer.blocks, writeBuffer, writeBuffer.blocks
    {
      && readBuffer != writeBuffer && readBuffer.Repr !! writeBuffer.Repr
      && writeBuffer.Valid() && WriteValid() && ReadValid() && handleCount == One(writing) + workReadCount
    }

    /** Created and started. */
    constructor (mask: nat)
      ensures Valid() && reading && !writing && appended == arrived == [] && readHighWaterMask == mask
      ensures fresh(readBuffer) && fresh(readBuffer.Repr) && fresh(writeBuffer) && fresh(writeBuffer.Repr)
    {
      var r := new AsioBuffer(INITIAL_SIZE);
      var w := new AsioBuffer(INITIAL_SIZE);
      readBuffer, writeBuffer, readHighWaterMask := r, w, mask;
      writing, pendingWriteLen, workReadCount, handleCount := false, 0, 0, 0;
      outgoing, writesInFlight, postedWrites := [], 0, 0;
      appended, sent, arrived, taken := [], [], [], [];
      reading, readsInFlight := true, 1;
      var views := r.MutableBuffer();
      incoming := views;
    }

    /** What `write(data)` posts: append, then `notify_write`. */
    method Write(data: seq<byte>)
      requires Valid() && writeBuffer.Measure().Fits(|data|)
      modifies this`pendingWriteLen, this`postedWrites, this`appended, writeBuffer, writeBuffer.Repr
      ensures Valid() && appended == old(appended) + data && sent == old(sent)
      ensures postedWrites == old(postedWrites) + 1 && writing == old(writing)
    {
      assert Key(WRITES, 0);
      AppendPending(data);
      postedWrites := postedWrites + 1;
    }

    method AppendPending(data: seq<byte>)
      requires readBuffer != writeBuffer && readBuffer.Repr !! writeBuffer.Repr && ReadValid()
      requires WriteShape() && writeBuffer.Measure().Fits(|data|)
      modifies this`pendingWriteLen, this`appended, writeBuffer, writeBuffer.Repr
      ensures readBuffer.Repr !! writeBuffer.Repr && ReadValid()
      ensures WriteShape() && appended == old(appended) + data
    {
      AppendBeside(writeBuffer, readBuffer, writing, outgoing, data);
      pendingWriteLen := pendingWriteLen + |data|;
      appended := appended + data;
      assert sent + writeBuffer.contents == appended;
    }

    /** The private `write()`: starts a write unless there is one or there is nothing to send. */
    method StartWrite()
      requires WriteShape()
      modifies this`writing, this`handleCount, this`outgoing, this`writesInFlight
      ensures WriteShape() && (pendingWriteLen > 0 ==> writing)
      ensures handleCount == old(handleCount) + One(writing) - One(old(writing))
    {
      if !writing && pendingWriteLen > 0 {
        if !writeBuffer.active {
          writeBuffer.OnlyBlock();
        }
        writing, writesInFlight := true, writesInFlight + 1;
        handleCount := handleCount + 1;
        outgoing := writeBuffer.ConstBuffer();
        ShowsMeans(outgoing, writeBuffer.contents);
      }
    }

    /** A posted call of `write()` runs. */
    method RunWrite()
      requires Valid() && postedWrites > 0
      modifies this`writing, this`handleCount, this`outgoing, this`writesInFlight, this`postedWrites
      ensures Valid() && postedWrites == old(postedWrites) - 1 && (pendingWriteLen > 0 ==> writing)
      ensures appended == old(appended) && sent == old(sent)
    {
      assert Key(WRITES, 0);
      postedWrites := postedWrites - 1;
      StartWrite();
    }

    /** The socket has sent the first `n` bytes that its views show; `handle_write` without an error. */
    method HandleWrite(n: nat) returns (bytes: seq<byte>)
      requires Valid() && writesInFlight > 0 && n <= Lengths(outgoing, |outgoing|)
      modifies this`writing, this`handleCount, this`outgoing, this`writesInFlight, this`pendingWriteLen, this`sent
      modifies writeBuffer`read, writeBuffer`readable, writeBuffer`notify, writeBuffer`contents
      ensures Valid() && |bytes| == n && sent == old(sent) + bytes && appended == old(appended)
      ensures postedWrites == old(postedWrites) && (pendingWriteLen > 0 ==> writing)
    {
      assert Key(WRITES, 0);
      handleCount := handleCount - 1;
      bytes := SendOn(n);
    }

    method SendOn(n: nat) returns (bytes: seq<byte>)
      requires WriteShape() && writesInFlight > 0 && n <= Lengths(outgoing, |outgoing|)
      modifies this`writing, this`handleCount, this`outgoing, this`writesInFlight, this`pendingWriteLen, this`sent
      modifies writeBuffer`read, writeBuffer`readable, writeBuffer`notify, writeBuffer`contents
      ensures WriteShape() && (pendingWriteLen > 0 ==> writing) && handleCount == old(handleCount) + One(writing)
      ensures |bytes| == n && sent == old(sent) + bytes
    {
      bytes := CompleteWrite(n);
      if pendingWriteLen > 0 {
        StartWrite();
      }
    }

    method CompleteWrite(n: nat) returns (bytes: seq<byte>)
      requires WriteShape() && writesInFlight > 0 && n <= Lengths(outgoing, |outgoing|)
      modifies this`writing, this`writesInFlight, this`pendingWriteLen, this`sent
      modifies writeBuffer`read, writeBuffer`readable, writeBuffer`notify, writeBuffer`contents
      ensures WriteShape() && !writing && |bytes| == n && sent == old(sent) + bytes
    {
      bytes := SendFront(writeBuffer, outgoing, n);
      writing, writesInFlight := false, writesInFlight - 1;
      sent := sent + bytes;
      pendingWriteLen := pendingWriteLen - n;
    }

    /** Handlers that only run what is posted and complete what is in flight, a byte or more at a time,
        send everything that was appended. */
    method Flush()
      requires Valid()
      modifies this`writing, this`handleCount, this`outgoing, this`writesInFlight, this`postedWrites
      modifies this`pendingWriteLen, this`sent
      modifies writeBuffer`read, writeBuffer`readable, writeBuffer`notify, writeBuffer`contents
      ensures Valid() && pendingWriteLen == 0 && sent == appended == old(appended)
    {
      assert Key(WRITES, 0);
      while pendingWriteLen > 0
        invariant Valid() && appended == old(appended)
        decreases pendingWriteLen
      {
        if !writing {
          RunWrite();
        }
        var n: int :| 0 < n <= Lengths(outgoing, |outgoing|);
        var bytes := HandleWrite(n);
      }
    }

    /** The private `read()`. */
    method StartRead()
      requires readBuffer.Valid() && arrived == taken + readBuffer.contents && BelowMark()
      requires !reading && readsInFlight == 0 && readBuffer.notify == Unset
      modifies this`reading, this`incoming, this`readsInFlight
      ensures ReadValid() && reading
    {
      reading, readsInFlight := true, 1;
      incoming := readBuffer.MutableBuffer();
    }

    /** The socket has put `data` in its views; `handle_read` without an error. */
    method HandleRead(data: seq<byte>)
      requires Valid() && readsInFlight > 0
      requires |data| <= Lengths(incoming, |incoming|) && readBuffer.Measure().Fits(|data|)
      modifies this`reading, this`incoming, this`readsInFlight, this`arrived, this`handleCount, this`workReadCount
      modifies readBuffer, readBuffer.Repr
      ensures Valid() && arrived == old(arrived) + data && taken == old(taken)
      ensures readBuffer.contents == old(readBuffer.contents) + data && workReadCount == old(workReadCount) + 1
      ensures reading <==> readHighWaterMask == 0 || |readBuffer.contents| < readHighWaterMask
    {
      handleCount := handleCount + 1;
      Arrive(data);
      workReadCount := workReadCount + 1;
    }

    method Arrive(data: seq<byte>)
      requires readBuffer != writeBuffer && readBuffer.Repr !! writeBuffer.Repr && ReadValid()
      requires writeBuffer.Valid() && WriteValid()
      requires readsInFlight > 0 && |data| <= Lengths(incoming, |incoming|) && readBuffer.Measure().Fits(|data|)
      modifies this`reading, this`incoming, this`readsInFlight, this`arrived, readBuffer, readBuffer.Repr
      ensures readBuffer.Repr !! writeBuffer.Repr && writeBuffer.Valid() && WriteValid() && ReadValid()
      ensures arrived == old(arrived) + data && readBuffer.contents == old(readBuffer.contents) + data
      ensures reading <==> readHighWaterMask == 0 || |readBuffer.contents| < readHighWaterMask
    {
      AcceptRead(data);
      ReadOrPark();
    }

    method ReadOrPark()
      requires readBuffer.Valid() && arrived == taken + readBuffer.contents
      requires !reading && readsInFlight == 0 && readBuffer.notify == Unset
      modifies this`reading, this`incoming, this`readsInFlight, readBuffer`notify
      ensures ReadValid()
      ensures reading <==> readHighWaterMask == 0 || |readBuffer.contents| < readHighWaterMask
    {
      if readHighWaterMask == 0 || readBuffer.readable < readHighWaterMask {
        StartRead();
      } else {
        readBuffer.SetNotifyBehindHighWaterMask(readHighWaterMask);
      }
    }

    method AcceptRead(data: seq<byte>)
      requires readBuffer != writeBuffer && readBuffer.Repr !! writeBuffer.Repr && ReadValid()
      requires writeBuffer.Valid() && WriteValid()
      requires readsInFlight > 0 && |data| <= Lengths(incoming, |incoming|) && readBuffer.Measure().Fits(|data|)
      modifies this`reading, this`readsInFlight, this`arrived, readBuffer, readBuffer.Repr
      ensures readBuffer.Repr !! writeBuffer.Repr && writeBuffer.Valid() && WriteValid() && readBuffer.Valid()
      ensures arrived == old(arrived) + data && arrived == taken + readBuffer.contents
      ensures readBuffer.contents == old(readBuffer.contents) + data
      ensures !reading && readsInFlight == 0 && readBuffer.notify == Unset
    {
      ReceiveBeside(readBuffer, writeBuffer, incoming, data);
      reading, readsInFlight := false, readsInFlight - 1;
      arrived := arrived + data;
      assert arrived == taken + readBuffer.contents;
    }

    /** A handler of the pipeline takes bytes; the callback that this may run starts the next read. */
    method Take(n: nat) returns (data: seq<byte>)
      requires Valid() && workReadCount > 0
      modifies this`reading, this`incoming, this`readsInFlight, this`taken, readBuffer
      ensures Valid() && taken == old(taken) + data && arrived == old(arrived)
      ensures |data| == Min(n, |old(readBuffer.contents)|) && workReadCount == old(workReadCount)
    {
      var notified;
      data, notified := readBuffer.Read(n);
      Resume(notified, data);
    }

    /** The handler has taken `data`; the callback, if that called it, starts the next read. */
    method Resume(notified: bool, ghost data: seq<byte>)
      requires readBuffer.Valid() && arrived == taken + (data + readBuffer.contents) && readsInFlight == One(reading)
      requires reading ==> readBuffer.notify == Unset && Onwards(readBuffer.blocks, readBuffer.write, incoming)
      requires reading ==> !notified && BelowMark()
      requires !reading ==> (notified <==> BelowMark())
      requires !reading ==> readBuffer.notify == if notified then Unset else Below(readHighWaterMask)
      modifies this`reading, this`incoming, this`readsInFlight, this`taken
      ensures ReadValid() && taken == old(taken) + data
    {
      taken := taken + data;
      assert arrived == taken + readBuffer.contents;
      if notified {
        StartRead();
      }
    }

    /** The end of the posted call that fires the pipeline. */
    method FinishRead()
      requires Valid() && workReadCount > 0
      modifies this`handleCount, this`workReadCount
      ensures Valid() && workReadCount == old(workReadCount) - 1
    {
      handleCount := handleCount - 1;
      workReadCount := workReadCount - 1;
    }
  }

  /** The bytes sent are the front of the buffer, which is then taken from it. */
  method SendFront(w: AsioBuffer, views: seq<View>, n: nat) returns (bytes: seq<byte>)
    requires w.Valid() && Tiles(w.blocks, w.read, views) && n <= Lengths(views, |views|) <= |w.contents|
    modifies w`read, w`readable, w`notify, w`contents
    ensures w.Valid() && |bytes| == n && bytes + w.contents == old(w.contents)
  {
    w.ValidMeans();
    ghost var c, k := w.contents, Lengths(views, |views|);
    TilesShow(w.blocks, w.read, w.write, w.contents, w.tail, views);
    assert (c + w.tail)[..k] == c[..k] && c[..k][..n] == c[..n];
    bytes := Collect(views, c[..k], n);
    var notified := w.Retrieve(n);
  }

  /** Bytes that arrive in one buffer leave the other alone. */
  method ReceiveBeside(r: AsioBuffer, w: AsioBuffer, views: seq<View>, data: seq<byte>)
    requires w != r && w.Repr !! r.Repr && w.Valid() && r.Valid()
    requires Onwards(r.blocks, r.write, views) && |data| <= Lengths(views, |views|) && r.Measure().Fits(|data|)
    modifies r, r.Repr
    ensures r.Valid() && r.contents == old(r.contents) + data && r.notify == old(r.notify)
    ensures w.Valid() && w.Repr !! r.Repr
  {
    r.InRepr();
    w.InRepr();
    r.ValidMeans();
    HoldsSpace(r.blocks, r.read, r.write, r.contents, r.tail);
    OnwardsLength(r.blocks, r.write, views);
    r.Receive(views, data);
    r.HasWritten(|data|);
  }

  /** An append to one buffer leaves the other alone, and views of the bytes to send where they were. */
  method AppendBeside(w: AsioBuffer, r: AsioBuffer, inFlight: bool, ghost views: seq<View>, data: seq<byte>)
    requires w != r && w.Repr !! r.Repr && w.Valid() && r.Valid() && w.Measure().Fits(|data|)
    requires inFlight ==> w.active && Tiles(w.blocks, w.read, views) && |views| <= |w.Held()|
    modifies w, w.Repr
    ensures w.Valid() && w.contents == old(w.contents) + data && w.active
    ensures inFlight ==> Tiles(w.blocks, w.read, views) && |views| <= |w.Held()|
    ensures r.Valid() && w.Repr !! r.Repr
  {
    r.InRepr();
    w.ValidMeans();
    HoldsSpace(w.blocks, w.read, w.write, w.contents, w.tail);
    ghost var was, from, held := w.blocks, w.read, w.Held();
    w.Append(data);
    if inFlight {
      w.StillTiled(was, from, held, views);
    }
  }
}
