/** The chunked byte buffer: a list of blocks with a read and a write cursor. */
module AsioBuffers {
  import opened Seals
  import opened Endian
  import opened Blocks
  import opened Views

  const INITIAL_SIZE: nat := 512
  const REMAIN_RATIO: nat := 8
  const LOW_USE_CEIL_COUNT: nat := 10

  datatype Notify = Unset | Below(mask: nat)

  const ALERTS: nat := 5
  const BUFFER: nat := 6

  /** What taking bytes one time after another does to the callback: it runs, once, if the queue, with
      `before` bytes at first and `after` at last, has become shorter and is below the mark. */
  ghost predicate Alerts(was: Notify, before: nat, notify: Notify, after: nat, notified: bool) {
    && after <= before && (notified <==> was.Below? && after < before && after < was.mask)
    && notify == if notified then Unset else was
  }

  ghost predicate Alerted(was: Notify, before: nat, notify: Notify, after: nat, notified: bool) {
    AlertSeal(was, before, notify, after, notified).Kept?
  }

  ghost function AlertSeal(was: Notify, before: nat, notify: Notify, after: nat, notified: bool): Seal {
    if forall k: nat {:trigger Key(ALERTS, k)} :: Key(ALERTS, k) ==> Alerts(was, before, notify, after, notified)
    then Kept else Broken
  }

  lemma AlertedNone(was: Notify, before: nat)
    ensures Alerted(was, before, was, before, false)
  {
  }

  lemma AlertedOn(was: Notify, before: nat, mid: Notify, some: nat, early: bool, notify: Notify, after: nat, ran: bool)
    requires Alerted(was, before, mid, some, early) && after < some
    requires (ran <==> mid.Below? && after < mid.mask) && notify == if ran then Unset else mid
    ensures Alerted(was, before, notify, after, early || ran)
  {
    assert Key(ALERTS, 0);
  }

  lemma AlertedMeans(was: Notify, before: nat, notify: Notify, after: nat, notified: bool)
    requires Alerted(was, before, notify, after, notified)
    ensures Alerts(was, before, notify, after, notified)
  {
    assert Key(ALERTS, 0);
  }

  /** The numbers that decide how an `append` or `has_written` changes the list of blocks: the size and
      the number of blocks, as they are when the buffer is active, the bytes read of the block at the
      read cursor, the bytes of the queue, the bytes that can be written, as the counters have it, once
      blocks already read are at the back, and the count of calls of low use. */
  datatype Gauge = Gauge(size: nat, count: nat, front: nat, readable: nat, room: nat, lowUse: nat)
  {
    /** How many blocks a call for `len` bytes adds. */
    function More(len: nat): (more: nat)
      requires size > 0
      ensures len < room + more * size || size < REMAIN_RATIO
    {
      var short := if room < len then Whole(len - room, size) else 0;
      assert (short + 1) * size == short * size + size;
      short + if room + short * size - len < size / REMAIN_RATIO then 1 else 0
    }

    /** With the blocks that a call for `len` bytes adds. */
    function Grew(len: nat): Gauge
      requires size > 0
    {
      this.(count := count + More(len), room := room + More(len) * size)
    }

    /** First the blocks that are missing, and then one more if it is due. */
    lemma GrewShort(len: nat)
      requires size > 0 && room < len
      ensures var n := Whole(len - room, size);
              Grew(len) == this.(count := count + n, room := room + n * size).Grew(len)
    {
      var n := Whole(len - room, size);
      assert (n + 1) * size == n * size + size;
    }

    predicate Low() {
      count > 3 && (readable + room) / 2 < count * size
    }

    /** Ten times in a row. */
    predicate LowAgain() {
      lowUse + 1 >= LOW_USE_CEIL_COUNT && Low()
    }

    /** With this use counted, and a quarter of the blocks dropped if it was low ten times in a row;
        the counters still count them as room. */
    function Counted(): Gauge {
      if LowAgain() then this.(count := count - count / 4, lowUse := 0)
      else this.(lowUse := lowUse + if Low() then 1 else 0)
    }

    /** Whether a call for `len` bytes drops blocks. */
    predicate ShrinkDue(len: nat)
      requires size > 0
    {
      room >= len && Grew(len).LowAgain()
    }

    /** When the list of blocks has been adjusted for `len` bytes. */
    function Adjusted(len: nat): Gauge
      requires size > 0
    {
      if room >= len then Grew(len).Counted() else Grew(len).(lowUse := 0)
    }

    /** When they have been written. */
    function After(len: nat): Gauge
      requires size >= REMAIN_RATIO
    {
      Adjusted(len).(readable := readable + len, room := room + More(len) * size - len)
    }

    /** Whether the call stays inside the blocks. */
    predicate Fits(len: nat) {
      size > 0 && front + readable + len < Adjusted(len).count * size
    }

    /** The counters are those of the blocks. */
    predicate Exact() {
      front + readable + room == count * size
    }

    /** Just as many blocks are added as it takes to leave room for `len` bytes and an eighth of a block. */
    lemma MoreLeast(len: nat)
      requires size >= 8
      ensures len + size / 8 <= room + More(len) * size
      ensures More(len) > 0 ==> room + (More(len) - 1) * size < len + size / 8
    {
      var short := if room < len then Whole(len - room, size) else 0;
      assert (short + 1) * size == short * size + size;
      assert short > 0 ==> (short - 1) * size == short * size - size;
    }

    /** What a call does to the list of blocks: with more than three blocks, enough room, and less than twice
        the blocks' bytes counted as in use or free, it is one of low use, and the tenth of these in a row
        drops a quarter of the blocks; a call without room begins the count anew. */
    lemma AdjustExactly(len: nat)
      requires size >= 8 && lowUse < 10
      ensures var m := More(len);
              var n := count + m;
              var low := room >= len && n > 3 && readable + room + m * size < 2 * (n * size);
              && (ShrinkDue(len) <==> low && lowUse == 9)
              && Adjusted(len).count == (if low && lowUse == 9 then n - n / 4 else n)
              && Adjusted(len).lowUse == (if low then (lowUse + 1) % 10 else if room >= len then lowUse else 0)
    {
    }

    /** While the counters are exact, the last of these conditions always holds. */
    lemma LowExactly(len: nat)
      requires Exact() && size >= 8 && count > 0
      ensures readable + room + More(len) * size < 2 * ((count + More(len)) * size)
    {
      Distribute(count, More(len), size);
      Multiply(1, count + More(len), size);
    }

    /** With exact counters every call fits that drops nothing. */
    lemma FitsUndropped(len: nat)
      requires Exact() && size >= REMAIN_RATIO && !ShrinkDue(len)
      ensures Fits(len)
    {
      Distribute(count, More(len), size);
    }

    /** Counters that count a block or more too many let some call run past the last block: one for
        which they leave an eighth of a block. */
    lemma Overruns()
      requires size >= REMAIN_RATIO && front + readable + room >= count * size + size && room >= size
      ensures !Fits(room - size / REMAIN_RATIO)
    {
      var len := room - size / REMAIN_RATIO;
      assert More(len) == 0;
      Multiply(Adjusted(len).count, count, size);
    }
  }

  /** How many blocks of `size` bytes it takes to hold `n` bytes. */
  function Whole(n: nat, size: nat): (count: nat)
    requires size > 0
    ensures n <= count * size && (n > 0 ==> count > 0 && (count - 1) * size < n) && (n == 0 ==> count == 0)
  {
    if n == 0 then 0 else if n <= size then 1 else 1 + Whole(n - size, size)
  }

  lemma Distribute(a: nat, b: nat, size: nat)
    ensures (a + b) * size == a * size + b * size
  {
  }

  lemma Multiply(a: nat, b: nat, size: nat)
    requires a <= b
    ensures a * size <= b * size
  {
  }

  lemma Quarter(n: nat, size: nat, k: nat)
    requires size > 0
    ensures k * size <= n * size / 4 <==> k <= n / 4
  {
    if k <= n / 4 {
      Multiply(4 * k, n, size);
    } else {
      Multiply(n + 1, 4 * k, size);
    }
  }

  class AsioBuffer {
    var blocks: seq<array<byte>>
    /** All blocks that were ever in the list. */
    ghost var Repr: set<array<byte>>
    var read: Cursor
    var write: Cursor
    const blockSize: nat
    var readable: nat
    var writable: nat
    var total: nat
    var lowUse: nat
    var active: bool
    /** The callback for falling below the high-water mark, if one is set. */
    var notify: Notify

    /** The queue of bytes that the buffer stands for, and the bytes behind it in the order in
        which they will be written. */
    ghost var contents: seq<byte>
    ghost var tail: seq<byte>
    /** How many bytes `writable` counts that are in no block: those of the blocks dropped so far. */
    ghost var slack: nat

    ghost predicate Shaped()
      reads this
    {
      && |blocks| >= 1 && Stored(blocks, if active then blockSize else 1, Repr)
      && (if active then blockSize >= INITIAL_SIZE else |blocks| == 1 && (blockSize == 0 || blockSize >= INITIAL_SIZE))
    }

    /** The blocks hold the queue between the cursors, and the counters are those of the cursors. */
    ghost predicate Accounted()
      reads this, blocks
    {
      && Shaped() && Holds(blocks, read, write, contents, tail)
      && readable == |contents| && writable == |tail| + slack && total == Size(blocks)
      && (slack == 0 || (active && slack >= blockSize))
    }

    ghost predicate Coherent()
      reads this, blocks
    {
      Accounted() && lowUse < LOW_USE_CEIL_COUNT
    }

    ghost predicate Valid()
      reads this, blocks
      ensures Valid() ==> readable == |contents| && writable == |tail| + slack
      ensures Valid() && active ==> blockSize >= INITIAL_SIZE
    {
      assert Key(BUFFER, 0);
      ValidSeal().Kept?
    }

    ghost function ValidSeal(): Seal
      reads this, blocks
    {
      if forall k: nat {:trigger Key(BUFFER, k)} :: Key(BUFFER, k) ==> Coherent() then Kept else Broken
    }

    lemma ValidMeans()
      requires Valid()
      ensures Coherent()
    {
      assert Key(BUFFER, 0);
    }

    constructor (initialSize: nat)
      ensures Valid() && contents == [] && |blocks| == 1 && slack == 0 && fresh(Repr)
      ensures !active && notify == Unset && lowUse == 0
      ensures blockSize % INITIAL_SIZE == 0 && initialSize <= blockSize < initialSize + INITIAL_SIZE
    {
      var fake := new byte[1];
      blocks, Repr := [fake], {fake};
      read, write := Cursor(0, 0), Cursor(0, 0);
      blockSize := (if initialSize % INITIAL_SIZE == 0 then initialSize / INITIAL_SIZE
                    else initialSize / INITIAL_SIZE + 1) * INITIAL_SIZE;
      readable, writable, total, lowUse := 0, 1, 1, 0;
      active, notify := false, Unset;
      contents, tail, slack := [], Flat([fake]), 0;
      new;
      StoredOne(fake, Repr);
      HoldsInit(blocks);
    }

    method CheckActive()
      requires Valid() && blockSize > 0
      modifies this
      ensures Valid() && active && contents == old(contents) && old(tail) <= tail && slack == old(slack)
      ensures old(active) ==> unchanged(this)
      ensures !old(active) ==> |blocks| == 2 && read.block == 0 && slack == 0
      ensures Measure() == old(Measure()) && notify == old(notify)
      ensures Repr >= old(Repr) && fresh(Repr - old(Repr))
    {
      ValidMeans();
      if !active {
        Activate();
      }
    }

    method Activate()
      requires Valid() && !active && blockSize > 0
      modifies this
      ensures Valid() && active && contents == [] && old(contents) == [] && old(tail) <= tail
      ensures |blocks| == 2 && read.block == 0 && slack == old(slack) == 0
      ensures Measure() == old(Measure()) && notify == old(notify)
      ensures Repr >= old(Repr) && fresh(Repr - old(Repr))
    {
      ValidMeans();
      OnlyBlock();
      var first, second := NewBlocks(blocks[0][0]);
      TwoBlocks(first, second);
      HoldsInit([first, second]);
      ghost var flat := Flat([first, second]);
      blocks, Repr := [first, second], Repr + {first, second};
      writable, total, active := 2 * blockSize, 2 * blockSize, true;
      tail := flat;
    }

    method NewBlocks(firstChar: byte) returns (first: array<byte>, second: array<byte>)
      requires blockSize > 0
      ensures fresh(first) && fresh(second) && first != second && first.Length == second.Length == blockSize
      ensures first[0] == firstChar
    {
      first := new byte[blockSize];
      first[0] := firstChar;
      second := new byte[blockSize];
    }

    lemma OnlyBlock()
      requires Valid() && !active
      ensures |blocks| == 1 && blocks[0].Length == 1 && read == write == Cursor(0, 0)
      ensures contents == [] && tail == [blocks[0][0]]
    {
      ValidMeans();
      HoldsSpace(blocks, read, write, contents, tail);
      StoredIn(blocks, 1, Repr);
      assert Open(0);
      assert Flat(blocks) == Run(blocks, 0) + blocks[0][..];
    }

    lemma TwoBlocks(a: array<byte>, b: array<byte>)
      requires a != b && a.Length == b.Length == blockSize && blockSize > 0
      ensures Stored([a, b], blockSize, Repr + {a, b}) && Size([a, b]) == 2 * blockSize
      ensures [a[0]] <= Flat([a, b])
    {
      FlatAppend([a], b);
      assert Flat([a]) == Run([a], 0) + a[..];
      assert [a] + [b] == [a, b];
    }

    /** The blocks that hold the queue. */
    ghost function Held(): seq<array<byte>>
      requires Valid()
      reads this, blocks
    {
      ValidMeans();
      HoldsSpace(blocks, read, write, contents, tail);
      blocks[read.block..write.block + 1]
    }

    /** The first loop of `adjust_buffer`: blocks already read go to the back. */
    method Rotate()
      requires Valid() && active
      modifies this`blocks, this`read, this`write, this`writable, this`tail
      ensures Valid() && read.block == 0 && |blocks| == |old(blocks)| && old(tail) <= tail
      ensures Measure() == old(Measure()) && Held() == old(Held())
    {
      ValidMeans();
      while read.block != 0
        invariant Valid() && |blocks| == |old(blocks)| && old(tail) <= tail
        invariant Measure() == old(Measure()) && Held() == old(Held())
        decreases read.block
      {
        RotateOne();
      }
    }

    method RotateOne()
      requires Valid() && active && read.block != 0
      modifies this`blocks, this`read, this`write, this`writable, this`tail
      ensures Valid() && read.block == old(read.block) - 1 && |blocks| == |old(blocks)| && old(tail) <= tail
      ensures Measure() == old(Measure()) && Held() == old(Held())
    {
      ValidMeans();
      HoldsSpace(blocks, read, write, contents, tail);
      var block, read', write' := blocks[0], read.(block := read.block - 1), write.(block := write.block - 1);
      ghost var blocks' := Rotated(blocks);
      HoldsRotated(blocks, read, write, contents, tail, blocks', read', write');
      StoredRotated(blocks, blockSize, Repr);
      assert blocks'[read'.block..write'.block + 1] == blocks[read.block..write.block + 1];
      tail := tail + block[..];
      blocks := blocks[1..] + [block];
      read, write := read', write';
      writable := writable + block.Length;
    }

    method AddBlock() returns (size: nat)
      requires Valid() && active
      modifies this`blocks, this`Repr, this`writable, this`total, this`tail
      ensures Valid() && size == blockSize && writable == old(writable) + blockSize && old(tail) <= tail
      ensures |blocks| == |old(blocks)| + 1 && Held() == old(Held()) && Repr >= old(Repr) && fresh(Repr - old(Repr))
    {
      ValidMeans();
      HoldsSpace(blocks, read, write, contents, tail);
      var block := new byte[blockSize];
      HoldsAppend(blocks, read, write, contents, tail, block);
      StoredAppend(blocks, blockSize, Repr, block);
      tail := tail + block[..];
      blocks, Repr := blocks + [block], Repr + {block};
      writable := writable + blockSize;
      total := total + blockSize;
      size := blockSize;
    }

    method CheckToAddBlock(len: nat)
      requires Valid() && active && read.block == 0 && len <= writable
      modifies this`blocks, this`Repr, this`writable, this`total, this`tail
      ensures Valid() && Measure() == old(Measure()).Grew(len) && old(tail) <= tail
      ensures Held() == old(Held()) && Repr >= old(Repr) && fresh(Repr - old(Repr))
    {
      if writable - len < blockSize / REMAIN_RATIO {
        var size := AddBlock();
      }
    }

    function Measure(): Gauge
      requires Valid()
      reads this, blocks
    {
      ValidMeans();
      HoldsSpace(blocks, read, write, contents, tail);
      if active then Gauge(blockSize, |blocks|, read.at, readable, writable + Offset(blocks, read.block), lowUse)
      else Gauge(blockSize, 2, 0, 0, 2 * blockSize, lowUse)
    }

    lemma Accounts()
      requires Valid()
      ensures active ==> total == Size(blocks) == |blocks| * blockSize
      ensures var g := Measure(); g.front + g.readable + g.room == g.count * g.size + slack
    {
      ValidMeans();
      HoldsSpace(blocks, read, write, contents, tail);
      if active {
        StoredIn(blocks, blockSize, Repr);
        OffsetEven(blocks, blockSize, |blocks|);
      }
    }

    /** The counters are exact until blocks are dropped; from then on some call runs past the last block. */
    lemma SlackExactly()
      requires Valid() && blockSize > 0
      ensures slack == 0 <==> Measure().Exact()
      ensures slack > 0 ==> exists len :: !Measure().Fits(len)
    {
      ValidMeans();
      Accounts();
      if slack > 0 {
        HoldsSpace(blocks, read, write, contents, tail);
        Measure().Overruns();
      }
    }

    /** Makes room for `len` bytes and one more, and drops blocks when that is due. The call fits exactly
        if the blocks that are then left have room for the queue, `len` bytes and one more. */
    method AdjustBuffer(len: nat)
      requires Valid() && active
      modifies this`blocks, this`Repr, this`read, this`write, this`writable, this`total, this`lowUse, this`tail, this`slack
      ensures read == Cursor(0, old(read.at)) && Repr >= old(Repr) && fresh(Repr - old(Repr))
      ensures |blocks| == old(Measure()).Adjusted(len).count && total == Size(blocks) == |blocks| * blockSize
      ensures old(Measure()).Fits(len) <==> read.at + readable + len < total
      ensures write.at < blockSize && write.block * blockSize + write.at == read.at + readable
      ensures read.at + readable + writable == total + old(slack) <==> !old(Measure()).ShrinkDue(len)
      ensures old(Measure()).Fits(len) || !old(Measure()).ShrinkDue(len) ==>
                Stays(old(Held()), old(tail)) && Measure() == old(Measure()).Adjusted(len)
      ensures old(Measure()).Fits(len) ==> len < |tail|
    {
      Rotate();
      WriteStands();
      AdjustRotated(len);
    }

    /** The cursor stands behind the queue. */
    lemma WriteStands()
      requires Valid() && active && read.block == 0
      ensures write.at < blockSize && write.block * blockSize + write.at == read.at + readable
    {
      ValidMeans();
      HoldsSpace(blocks, read, write, contents, tail);
      StoredIn(blocks, blockSize, Repr);
      OffsetEven(blocks, blockSize, write.block);
    }

    /** `adjust_buffer` from behind its first loop on. */
    method AdjustRotated(len: nat)
      requires Valid() && active && read.block == 0
      modifies this`blocks, this`Repr, this`writable, this`total, this`lowUse, this`tail, this`slack
      ensures Repr >= old(Repr) && fresh(Repr - old(Repr))
      ensures |blocks| == old(Measure()).Adjusted(len).count && total == Size(blocks) == |blocks| * blockSize
      ensures read.at + readable + writable == total + old(slack) <==> !old(Measure()).ShrinkDue(len)
      ensures old(Measure()).Fits(len) || !old(Measure()).ShrinkDue(len) ==>
                Stays(old(Held()), old(tail)) && Measure() == old(Measure()).Adjusted(len)
      ensures old(Measure()).Fits(len) ==> len < |tail|
    {
      if writable >= len {
        Reuse(len);
      } else {
        Grow(len);
        Accounts();
      }
      if old(Measure()).Fits(len) {
        Accounts();
      }
    }

    /** The queue is where it was, and so are the bytes behind it. */
    ghost predicate Stays(held: seq<array<byte>>, behind: seq<byte>)
      reads this, blocks
    {
      Valid() && Held() == held && (behind <= tail || tail <= behind)
    }

    /** The arm of `adjust_buffer` for a buffer that has room. */
    method Reuse(len: nat)
      requires Valid() && active && read.block == 0 && writable >= len
      modifies this`blocks, this`Repr, this`writable, this`total, this`lowUse, this`tail, this`slack
      ensures Repr >= old(Repr) && fresh(Repr - old(Repr))
      ensures |blocks| == old(Measure()).Adjusted(len).count && total == Size(blocks) == |blocks| * blockSize
      ensures read.at + readable + writable == total + old(slack) <==> !old(Measure()).ShrinkDue(len)
      ensures old(Measure()).Fits(len) || !old(Measure()).ShrinkDue(len) ==>
                Stays(old(Held()), old(tail)) && Measure() == old(Measure()).Adjusted(len)
    {
      CheckToAddBlock(len);
      CountUse();
    }

    /** Counts a use, and drops blocks when that is due. */
    method CountUse()
      requires Valid() && active && read.block == 0
      modifies this`blocks, this`total, this`lowUse, this`tail, this`slack
      ensures |blocks| == old(Measure()).Counted().count && total == Size(blocks) == |blocks| * blockSize
      ensures read.at + readable + writable == total + old(slack) <==> !old(Measure()).LowAgain()
      ensures read.at + readable < total || !old(Measure()).LowAgain() ==>
                Stays(old(Held()), old(tail)) && Measure() == old(Measure()).Counted()
    {
      ValidMeans();
      Accounts();
      ghost var all := blocks;
      if |blocks| > 3 && (readable + writable) / 2 < total {
        lowUse := lowUse + 1;
      }
      if lowUse >= LOW_USE_CEIL_COUNT {
        Shrink();
        if read.at + readable < total {
          HoldsSpace(blocks, read, write, contents, tail);
          assert blocks[read.block..write.block + 1] == all[read.block..write.block + 1];
        }
      }
    }

    /** The arm of `adjust_buffer` for a buffer that has to grow. */
    method Grow(len: nat)
      requires Valid() && active && read.block == 0 && writable < len
      modifies this`blocks, this`Repr, this`writable, this`total, this`lowUse, this`tail
      ensures Valid() && Measure() == old(Measure()).Grew(len).(lowUse := 0)
      ensures Held() == old(Held()) && old(tail) <= tail
      ensures Repr >= old(Repr) && fresh(Repr - old(Repr))
    {
      Measure().GrewShort(len);
      Enlarge(len - writable);
      CheckToAddBlock(len);
    }

    /** The loop of that arm. */
    method Enlarge(len: nat)
      requires Valid() && active && read.block == 0
      modifies this`blocks, this`Repr, this`writable, this`total, this`lowUse, this`tail
      ensures Valid() && Held() == old(Held()) && old(tail) <= tail
      ensures var n := Whole(len, blockSize);
              Measure() == old(Measure()).(count := |old(blocks)| + n, room := old(writable) + n * blockSize, lowUse := 0)
      ensures Repr >= old(Repr) && fresh(Repr - old(Repr))
    {
      Accounts();
      AddBlocks(len);
      Accounts();
      Distribute(|old(blocks)|, Whole(len, blockSize), blockSize);
    }

    method AddBlocks(len: nat)
      requires Valid() && active
      modifies this`blocks, this`Repr, this`writable, this`total, this`lowUse, this`tail
      ensures Valid() && Held() == old(Held()) && old(tail) <= tail
      ensures |blocks| == |old(blocks)| + Whole(len, blockSize) && lowUse == 0
      ensures Repr >= old(Repr) && fresh(Repr - old(Repr))
    {
      ValidMeans();
      lowUse := 0;
      var remain := len;
      while remain > 0
        invariant Valid() && lowUse == 0 && Held() == old(Held()) && old(tail) <= tail
        invariant Repr >= old(Repr) && fresh(Repr - old(Repr))
        invariant |blocks| + Whole(remain, blockSize) == |old(blocks)| + Whole(len, blockSize)
        decreases remain
      {
        var size := AddBlock();
        remain := if remain > size then remain - size else 0;
      }
    }

    /** Drops a quarter of the blocks from the back; `writable` stays. */
    method Shrink()
      requires Accounted() && active && |blocks| > 3 && read.block == 0
      modifies this`blocks, this`total, this`lowUse, this`tail, this`slack
      ensures blocks == old(blocks)[..|old(blocks)| - |old(blocks)| / 4] && total == Size(blocks) == |blocks| * blockSize
      ensures slack > old(slack) && lowUse == 0 && read.at + readable + writable == total + slack
      ensures read.at + readable < total ==> Coherent() && tail <= old(tail)
    {
      ghost var all := blocks;
      DropBlocks();
      lowUse := 0;
      RunShared(all, blocks, |blocks|);
      HoldsSpace(all, read, write, contents, tail);
      slack := slack + (Size(all) - total);
      if read.at + readable < total {
        ghost var kept := tail[..total - (read.at + readable)];
        HoldsKept(all, read, write, contents, tail, blocks, kept);
        tail := kept;
      }
    }

    /** The shrink loop, which lowers `total_bytes_` only. */
    method DropBlocks()
      requires Shaped() && active && |blocks| > 3 && total == Size(blocks)
      modifies this`blocks, this`total
      ensures blocks == old(blocks)[..|old(blocks)| - |old(blocks)| / 4]
      ensures total == Size(blocks) == |blocks| * blockSize && total + blockSize <= old(total) && Shaped()
    {
      ghost var all := blocks;
      StoredIn(blocks, blockSize, Repr);
      OffsetEven(blocks, blockSize, |blocks|);
      ghost var n, dropped := |blocks|, 0;
      var reduce := total / 4;
      Quarter(n, blockSize, 1);
      while reduce >= blocks[|blocks| - 1].Length
        invariant 0 <= dropped <= n / 4 && blocks == old(blocks)[..n - dropped]
        invariant reduce == n * blockSize / 4 - dropped * blockSize >= 0
        invariant total == n * blockSize - dropped * blockSize
        decreases |blocks|
      {
        DropOne(n, dropped);
        var last := |blocks| - 1;
        reduce := reduce - blocks[last].Length;
        total := total - blocks[last].Length;
        blocks := blocks[..last];
        dropped := dropped + 1;
      }
      DropOne(n, dropped);
      OffsetEven(blocks, blockSize, |blocks|);
      Distribute(n - dropped, dropped, blockSize);
      Multiply(1, dropped, blockSize);
      StoredKept(all, blockSize, Repr, n - dropped);
    }

    lemma DropOne(n: nat, dropped: nat)
      requires blockSize > 0
      ensures (dropped + 1) * blockSize == dropped * blockSize + blockSize
      ensures dropped * blockSize + blockSize <= n * blockSize / 4 <==> dropped + 1 <= n / 4
    {
      Distribute(dropped, 1, blockSize);
      Quarter(n, blockSize, dropped + 1);
    }

    /** The write cursor over `len` bytes, and the counters with it. */
    method WriteBytes(len: nat)
      requires Valid() && len < |tail|
      modifies this`write, this`readable, this`writable, this`contents, this`tail
      ensures Valid() && contents == old(contents) + old(tail)[..len] && tail == old(tail)[len..]
      ensures old(Held()) <= Held()
    {
      ValidMeans();
      HoldsSpace(blocks, read, write, contents, tail);
      var to := AdjustIndex(blocks, len, write);
      HoldsWritten(blocks, read, write, contents, tail, len, to);
      write := to;
      readable, writable := readable + len, writable - len;
      contents, tail := contents + tail[..len], tail[len..];
    }

    /** Adds at the back of the queue. */
    method Append(data: seq<byte>)
      requires Valid() && Measure().Fits(|data|)
      modifies this, Repr
      ensures Valid() && active && contents == old(contents) + data
      ensures Repr >= old(Repr) && fresh(Repr - old(Repr)) && notify == old(notify)
      ensures Measure() == old(Measure()).After(|data|)
      ensures old(active) ==> read.at == old(read.at) && old(Held()) <= Held()
    {
      Prepare(|data|);
      InRepr();
      CopyIn(data);
      WriteBytes(|data|);
    }

    /** `check_active` and then `adjust_buffer`. */
    method Prepare(len: nat)
      requires Valid() && Measure().Fits(len)
      modifies this
      ensures Valid() && active && contents == old(contents) && len < |tail| && (old(tail) <= tail || tail <= old(tail))
      ensures Repr >= old(Repr) && fresh(Repr - old(Repr)) && notify == old(notify)
      ensures Measure() == old(Measure()).Adjusted(len)
      ensures old(active) ==> read.at == old(read.at) && Held() == old(Held())
    {
      ValidMeans();
      CheckActive();
      AdjustBuffer(len);
    }

    lemma InRepr()
      requires Valid()
      ensures forall i :: 0 <= i < |blocks| ==> blocks[i] in Repr
    {
      ValidMeans();
      StoredIn(blocks, if active then blockSize else 1, Repr);
    }

    /** Puts `data` at the write cursor, which stays. */
    method CopyIn(data: seq<byte>)
      requires Valid() && active && |data| < |tail|
      modifies blocks, this`tail
      ensures Valid() && Held() == old(Held()) && tail == data + old(tail)[|data|..]
    {
      ValidMeans();
      StoredIn(blocks, blockSize, Repr);
      Put(blocks, read, write, contents, tail, data);
      tail := data + tail[|data|..];
    }

    /** Makes the first `len` bytes that were put at the write cursor part of the queue. */
    method HasWritten(len: nat)
      requires Valid() && Measure().Fits(Min(len, writable))
      modifies this
      ensures Valid() && active && |contents| == |old(contents)| + Min(len, old(writable))
      ensures old(contents) + old(tail)[..Min(len, |old(tail)|)] <= contents
      ensures Repr >= old(Repr) && fresh(Repr - old(Repr)) && notify == old(notify)
      ensures Measure() == old(Measure()).After(Min(len, old(writable)))
    {
      var n := Min(len, writable);
      Prepare(n);
      WriteBytes(n);
    }

    /** The front of the queue, which stays. */
    method Peek(len: nat) returns (data: seq<byte>)
      requires Valid()
      ensures data == contents[..Min(len, |contents|)]
    {
      ValidMeans();
      data := Take(blocks, read, write, contents, tail, Min(len, readable));
    }

    /** Takes from the front of the queue. `notified` says that the callback ran, once. */
    method Retrieve(len: nat) returns (notified: bool)
      requires Valid()
      modifies this`read, this`readable, this`notify, this`contents
      ensures Valid() && contents == old(contents)[Min(len, |old(contents)|)..]
      ensures notified <==> old(notify).Below? && |contents| < old(notify).mask
      ensures notify == if notified then Unset else old(notify)
    {
      ValidMeans();
      var n := Min(len, readable);
      HoldsSpace(blocks, read, write, contents, tail);
      var to := AdjustIndex(blocks, n, read);
      HoldsRead(blocks, read, write, contents, tail, n, to);
      read, readable := to, readable - n;
      contents := contents[n..];
      notified := notify.Below? && readable < notify.mask;
      if notified {
        notify := Unset;
      }
    }

    method Read(len: nat) returns (data: seq<byte>, notified: bool)
      requires Valid()
      modifies this`read, this`readable, this`notify, this`contents
      ensures Valid() && old(contents) == data + contents && |data| == Min(len, |old(contents)|)
      ensures notified <==> old(notify).Below? && |contents| < old(notify).mask
      ensures notify == if notified then Unset else old(notify)
    {
      data := Peek(len);
      notified := Retrieve(len);
    }

    method SetNotifyBehindHighWaterMask(mask: nat)
      requires Valid()
      modifies this`notify
      ensures Valid() && notify == Below(mask)
    {
      ValidMeans();
      notify := Below(mask);
    }

    /** Appends the digits of `x` in the order asked for, whatever the host. */
    method AppendEndian(little: bool, x: nat, width: nat, big: bool)
      requires Valid() && Measure().Fits(width) && x < Limit(width)
      modifies this, Repr
      ensures Valid() && contents == old(contents) + Digits(big, x, width)
      ensures Repr >= old(Repr) && fresh(Repr - old(Repr)) && notify == old(notify)
    {
      var bytes := ToBytes(little, x, width, big);
      Append(bytes);
    }

    static method ToBytes(little: bool, x: nat, width: nat, big: bool) returns (bytes: seq<byte>)
      requires x < Limit(width)
      ensures |bytes| == width && bytes == Digits(big, x, width)
    {
      var base := AdaptEndian(little, x, width, big);
      AdaptedBytes(little, x, width, big);
      bytes := Digits(!little, base, width);
    }

    /** The value `width` bytes from `index` on have on the wire. */
    method PeekIndexEndian(little: bool, width: nat, index: nat, big: bool) returns (x: nat)
      requires Valid() && index + width <= |contents|
      ensures x == FromDigits(big, contents[index..index + width])
    {
      var all := Peek(index + width);
      x := FromBytes(little, all[index..index + width], big);
      assert all[index..index + width] == contents[index..index + width];
    }

    static method FromBytes(little: bool, bytes: seq<byte>, big: bool) returns (x: nat)
      ensures x == FromDigits(big, bytes)
    {
      DigitsOfBytes(!little, bytes);
      x := AdaptEndian(little, FromDigits(!little, bytes), |bytes|, big);
      AdaptedValue(little, bytes, big);
    }

    /** The value at the front; 0 if there are too few bytes. */
    method PeekEndian(little: bool, width: nat, big: bool) returns (x: nat)
      requires Valid()
      ensures x == if |contents| < width then 0 else FromDigits(big, contents[..width])
    {
      var data := Peek(width);
      if |data| != width {
        x := 0;
      } else {
        x := FromBytes(little, data, big);
      }
    }

    /** Takes the value from the front; too few bytes are taken as well, and read as 0. */
    method ReadEndian(little: bool, width: nat, big: bool) returns (x: nat, notified: bool)
      requires Valid()
      modifies this`read, this`readable, this`notify, this`contents
      ensures Valid() && contents == old(contents)[Min(width, |old(contents)|)..]
      ensures notified <==> old(notify).Below? && |contents| < old(notify).mask
      ensures notify == if notified then Unset else old(notify)
      ensures x == if |old(contents)| < width then 0 else FromDigits(big, old(contents)[..width])
    {
      ghost var was := contents;
      var data;
      data, notified := Read(width);
      assert data == was[..|data|];
      if |data| != width {
        x := 0;
      } else {
        x := FromBytes(little, data, big);
      }
    }

    /** A value put in at the back is read as itself, behind whatever is before it and however its
        bytes lie in the blocks, on hosts of either byte order. */
    method TypedRoundTrip(writer: bool, reader: bool, x: nat, width: nat, big: bool) returns (y: nat)
      requires Valid() && Measure().Fits(width) && x < Limit(width)
      modifies this, Repr
      ensures Valid() && y == x
    {
      var index := readable;
      AppendEndian(writer, x, width, big);
      y := PeekIndexEndian(reader, width, index, big);
      assert contents[index..index + width] == Digits(big, x, width);
      DigitsRoundTrip(big, x, width);
    }

    /** What may be written: the views cover the tail, in order. */
    method MutableBuffer() returns (views: seq<View>)
      requires Valid()
      ensures Onwards(blocks, write, views) && Shows(views, tail)
    {
      ValidMeans();
      views := CoverTail(blocks, read, write, contents, tail);
    }

    /** What may be read: the views cover the queue, in order. */
    method ConstBuffer() returns (views: seq<View>)
      requires Valid()
      ensures Tiles(blocks, read, views) && Shows(views, contents) && |views| == |Held()|
    {
      ValidMeans();
      HoldsSpace(blocks, read, write, contents, tail);
      views := CoverQueue(blocks, read, write, contents, tail);
    }

    /** The socket puts `data` in the views that `MutableBuffer` gave out. */
    method Receive(views: seq<View>, data: seq<byte>)
      requires Valid() && Onwards(blocks, write, views) && |data| <= |tail|
      modifies blocks, this`tail
      ensures Valid() && Onwards(blocks, write, views) && tail == data + old(tail)[|data|..]
    {
      ValidMeans();
      StoredIn(blocks, if active then blockSize else 1, Repr);
      DeliverBehind(blocks, read, write, contents, tail, views, data);
      tail := data + tail[|data|..];
    }

    /** One asynchronous read: the views are taken, the queue is read from before and after the bytes
        arrive, and `has_written` is told how many came, unless that would run past the blocks. */
    method ReadRound(data: seq<byte>, early: nat, late: nat) returns (fits: bool)
      requires Valid() && |data| <= |tail|
      modifies this, Repr
      ensures Valid() && Repr >= old(Repr) && fresh(Repr - old(Repr))
      ensures var left := old(contents)[Min(early + late, |old(contents)|)..];
              if fits then contents == left + data else contents == left && !Measure().Fits(|data|)
      ensures old(blockSize > 0 && slack == 0 && (!active || lowUse + 1 < LOW_USE_CEIL_COUNT || |blocks| < 3)) ==> fits
    {
      ReceiveAmong(data, early, late);
      fits := Measure().Fits(|data|);
      if fits {
        HasWritten(|data|);
      } else if blockSize > 0 && slack == 0 {
        Undropped(|data|);
      }
    }

    /** The bytes arrive in views taken before, while the queue is read from. */
    method ReceiveAmong(data: seq<byte>, early: nat, late: nat)
      requires Valid() && |data| <= |tail|
      modifies this`read, this`readable, this`notify, this`contents, this`tail, Repr
      ensures Valid() && contents == old(contents)[Min(early + late, |old(contents)|)..]
      ensures tail == data + old(tail)[|data|..]
    {
      ghost var start := contents;
      var views := MutableBuffer();
      InRepr();
      var notified := Retrieve(early);
      Receive(views, data);
      notified := Retrieve(late);
      DropTwice(start, early, late);
    }

    static lemma DropTwice(s: seq<byte>, a: nat, b: nat)
      ensures var t := s[Min(a, |s|)..]; t[Min(b, |t|)..] == s[Min(a + b, |s|)..]
    {
    }

    lemma Undropped(len: nat)
      requires Valid() && blockSize > 0 && slack == 0 && !Measure().Fits(len)
      ensures active && lowUse + 1 >= LOW_USE_CEIL_COUNT && |blocks| >= 3
    {
      ValidMeans();
      Accounts();
      if !Measure().ShrinkDue(len) {
        Measure().FitsUndropped(len);
      }
    }

    /** Views of the queue that were taken when `held` held it are still in place, and show its bytes. */
    lemma StillTiled(was: seq<array<byte>>, from: Cursor, held: seq<array<byte>>, views: seq<View>)
      requires Valid() && held <= Held() && from.at == read.at
      requires from.block + |held| <= |was| && was[from.block..from.block + |held|] == held
      requires Tiles(was, from, views) && |views| <= |held|
      ensures Tiles(blocks, read, views)
      ensures Lengths(views, |views|) <= |contents| ==> Shows(views, contents[..Lengths(views, |views|)])
    {
      ValidMeans();
      HoldsSpace(blocks, read, write, contents, tail);
      assert Held()[..|held|] == held;
      TilesMoved(was, from, views, held, blocks, read);
      TilesShow(blocks, read, write, contents, tail, views);
      var n := Lengths(views, |views|);
      if n <= |contents| {
        assert (contents + tail)[..n] == contents[..n];
      }
    }

    /** One asynchronous write: the views stay those of the bytes to send although others append, and
        what was sent, with what is left, is all that was appended. */
    method WriteRound(data: seq<byte>, n: nat) returns (sent: seq<byte>)
      requires Valid() && Measure().Fits(|data|) && n <= readable
      modifies this, Repr
      ensures Valid() && |sent| == n && sent + contents == old(contents) + data
      ensures Repr >= old(Repr) && fresh(Repr - old(Repr))
    {
      var views := ConstBuffer();
      ghost var start := contents;
      ShowsMeans(views, start);
      AppendAside(data, views);
      assert contents[..|start|] == start;
      sent := Collect(views, start, n);
      var notified := Retrieve(n);
    }

    /** An append while views of the queue are in use. */
    method AppendAside(data: seq<byte>, ghost views: seq<View>)
      requires Valid() && Measure().Fits(|data|)
      requires Tiles(blocks, read, views) && |views| <= |Held()| && AllFit(views) && Lengths(views, |views|) == |contents|
      modifies this, Repr
      ensures Valid() && contents == old(contents) + data && Shows(views, old(contents))
      ensures Repr >= old(Repr) && fresh(Repr - old(Repr))
    {
      ValidMeans();
      HoldsSpace(blocks, read, write, contents, tail);
      if !active {
        OnlyBlock();
      }
      ghost var start, was, from, held := contents, blocks, read, Held();
      Append(data);
      if start == [] {
        ShowsNothing(views);
      } else {
        StillTiled(was, from, held, views);
        assert contents[..|start|] == start;
      }
    }
  }

  /** One large append, then nine empty ones: the tenth drops a block that holds bytes of the queue. */
  method ShrinkReached() returns (b: AsioBuffer)
    ensures fresh(b) && fresh(b.Repr) && b.Valid() && b.blockSize == INITIAL_SIZE && b.slack == 0
    ensures b.Measure() == Four(LOW_USE_CEIL_COUNT - 1) && b.Measure().ShrinkDue(0) && !b.Measure().Fits(0)
  {
    b := new AsioBuffer(INITIAL_SIZE);
    FourLow(0);
    b.Append(seq(1600, i => 0));
    var n := 0;
    while n < LOW_USE_CEIL_COUNT - 1
      invariant fresh(b) && fresh(b.Repr) && b.Valid() && b.blockSize == INITIAL_SIZE
      invariant n <= LOW_USE_CEIL_COUNT - 1 && b.Measure() == Four(n)
    {
      AppendNone(b, n);
      n := n + 1;
    }
    FourLow(n);
    b.Accounts();
  }

  /** The tenth empty append, as far as `adjust_buffer`, drops the block that the write cursor stands in
      and the last bytes of the queue with it. */
  method ShrinkLoses() returns (b: AsioBuffer)
    ensures fresh(b) && b.read.block == 0 && b.write.block == |b.blocks|
    ensures b.total == Size(b.blocks) < |b.contents| == b.readable
  {
    b := ShrinkReached();
    FourLow(LOW_USE_CEIL_COUNT - 1);
    b.AdjustBuffer(0);
  }

  /** Once blocks have been dropped, the buffer has some call run past the last block it then has. */
  method SlackOverruns(b: AsioBuffer) returns (len: nat)
    requires b.Valid() && b.slack > 0
    modifies b
    ensures len <= old(b.Measure()).room && !old(b.Measure()).Fits(len)
    ensures old(b.Measure()).size > 0 && b.read.block == 0 && |b.blocks| == old(b.Measure()).Adjusted(len).count
    ensures b.total == Size(b.blocks) <= b.read.at + b.readable + len
  {
    b.ValidMeans();
    b.Accounts();
    HoldsSpace(b.blocks, b.read, b.write, b.contents, b.tail);
    len := b.Measure().room - b.blockSize / REMAIN_RATIO;
    b.Measure().Overruns();
    b.AdjustBuffer(len);
  }

  /** A buffer of four blocks, three of them and a bit in use. */
  ghost function Four(n: nat): Gauge {
    Gauge(512, 4, 0, 1600, 448, n)
  }

  method AppendNone(b: AsioBuffer, ghost n: nat)
    requires b.Valid() && b.Measure() == Four(n) && n + 1 < LOW_USE_CEIL_COUNT
    modifies b, b.Repr
    ensures b.Valid() && b.Measure() == Four(n + 1)
    ensures b.Repr >= old(b.Repr) && fresh(b.Repr - old(b.Repr))
  {
    FourLow(n);
    b.Append([]);
  }

  lemma FourLow(n: nat)
    requires n < LOW_USE_CEIL_COUNT
    ensures var g := Gauge(512, 2, 0, 0, 1024, 0); g.Fits(1600) && g.After(1600) == Four(0)
    ensures if n + 1 < LOW_USE_CEIL_COUNT then Four(n).Fits(0) && Four(n).After(0) == Four(n + 1)
            else Four(n).ShrinkDue(0) && !Four(n).Fits(0)
  {
    assert Whole(64, 512) == 1;
  }
}
