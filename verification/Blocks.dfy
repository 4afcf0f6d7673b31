/** Sequences of byte blocks seen as one run of bytes. */
module Blocks {
  import opened Seals
  import opened Sequences
  import opened Endian

  function Min(a: nat, b: nat): nat {
    if a < b then a else b
  }

  /** How many bytes the first `i` blocks hold. */
  function Offset(bs: seq<array<byte>>, i: nat): nat
    requires i <= |bs|
  {
    if i == 0 then 0 else Offset(bs, i - 1) + bs[i - 1].Length
  }

  /** The bytes of the first `i` blocks, one block after the other. */
  ghost function Run(bs: seq<array<byte>>, i: nat): (r: seq<byte>)
    requires i <= |bs|
    reads bs
    ensures |r| == Offset(bs, i)
  {
    if i == 0 then [] else Run(bs, i - 1) + bs[i - 1][..]
  }

  function Size(bs: seq<array<byte>>): nat {
    Offset(bs, |bs|)
  }

  ghost function Flat(bs: seq<array<byte>>): (r: seq<byte>)
    reads bs
    ensures |r| == Size(bs)
  {
    Run(bs, |bs|)
  }

  /** An iterator over the blocks and an index into its block. */
  datatype Cursor = Cursor(block: nat, at: nat)

  predicate Within(bs: seq<array<byte>>, c: Cursor) {
    c.block < |bs| && c.at < bs[c.block].Length
  }

  /** Where a cursor stands in the run. */
  function Position(bs: seq<array<byte>>, c: Cursor): nat
    requires c.block <= |bs|
  {
    Offset(bs, c.block) + c.at
  }

  lemma {:induction false} RunOn(bs: seq<array<byte>>, i: nat, j: nat)
    requires i <= j <= |bs|
    ensures Run(bs, j) == Run(bs, i) + Run(bs[i..], j - i)
    ensures Offset(bs, j) == Offset(bs, i) + Offset(bs[i..], j - i)
  {
    if i < j {
      RunOn(bs, i, j - 1);
      assert bs[j - 1] == bs[i..][j - 1 - i];
    }
  }

  lemma {:induction false} RunShared(bs: seq<array<byte>>, cs: seq<array<byte>>, i: nat)
    requires i <= |bs| && i <= |cs| && bs[..i] == cs[..i]
    ensures Run(bs, i) == Run(cs, i) && Offset(bs, i) == Offset(cs, i)
  {
    if i > 0 {
      assert bs[..i - 1] == bs[..i][..i - 1] == cs[..i][..i - 1] == cs[..i - 1];
      assert bs[i - 1] == bs[..i][i - 1] == cs[..i][i - 1];
      RunShared(bs, cs, i - 1);
    }
  }

  lemma OffsetMono(bs: seq<array<byte>>, i: nat, j: nat)
    requires i <= j <= |bs|
    ensures Offset(bs, i) <= Offset(bs, j)
  {
    RunOn(bs, i, j);
  }

  lemma FlatAppend(bs: seq<array<byte>>, b: array<byte>)
    ensures Flat(bs + [b]) == Flat(bs) + b[..] && Size(bs + [b]) == Size(bs) + b.Length
  {
    RunShared(bs, bs + [b], |bs|);
  }

  /** Block `i` in its place. */
  lemma FlatAt(bs: seq<array<byte>>, i: nat)
    requires i < |bs|
    ensures Flat(bs) == Flat(bs[..i]) + (bs[i][..] + Flat(bs[i + 1..]))
    ensures Size(bs[..i]) == Offset(bs, i) && Offset(bs, i) + bs[i].Length <= Size(bs)
  {
    var before, block, after := Run(bs, i), bs[i][..], Flat(bs[i + 1..]);
    RunOn(bs, i + 1, |bs|);
    RunShared(bs, bs[..i], i);
    assert |bs[..i]| == i && |bs[i + 1..]| == |bs| - (i + 1);
    Associative(before, block, after);
  }

  lemma Associative(a: seq<byte>, b: seq<byte>, c: seq<byte>)
    ensures (a + b) + c == a + (b + c)
  {
  }

  /** A stretch of one block is the stretch of the run that it occupies. */
  lemma FlatSlice(bs: seq<array<byte>>, i: nat, lo: nat, hi: nat)
    requires i < |bs| && lo <= hi <= bs[i].Length
    ensures Offset(bs, i) + hi <= Size(bs)
    ensures bs[i][lo..hi] == Flat(bs)[Offset(bs, i) + lo..Offset(bs, i) + hi]
  {
    FlatAt(bs, i);
    SliceInside(Flat(bs[..i]), bs[i][..], Flat(bs[i + 1..]), lo, hi);
    assert bs[i][lo..hi] == bs[i][..][lo..hi];
  }

  lemma SliceInside(before: seq<byte>, s: seq<byte>, after: seq<byte>, lo: nat, hi: nat)
    requires lo <= hi <= |s|
    ensures (before + (s + after))[|before| + lo..|before| + hi] == s[lo..hi]
  {
  }

  /** `s` with the bytes from `at` on overwritten by `data`. */
  ghost function Overwrite(s: seq<byte>, at: nat, data: seq<byte>): (r: seq<byte>)
    requires at + |data| <= |s|
    ensures |r| == |s|
  {
    s[..at] + data + s[at + |data|..]
  }

  lemma OverwriteInside(before: seq<byte>, s: seq<byte>, after: seq<byte>, at: nat, data: seq<byte>)
    requires at + |data| <= |s|
    ensures before + (Overwrite(s, at, data) + after) == Overwrite(before + (s + after), |before| + at, data)
  {
  }

  /** Two stretches written one after the other. */
  lemma OverwriteOn(s: seq<byte>, at: nat, a: seq<byte>, b: seq<byte>)
    requires at + |a| + |b| <= |s|
    ensures Overwrite(Overwrite(s, at, a), at + |a|, b) == Overwrite(s, at, a + b)
  {
  }

  ghost function Rotated(bs: seq<array<byte>>): seq<array<byte>>
    requires bs != []
  {
    bs[1..] + [bs[0]]
  }

  /** Moving the first block to the back. */
  lemma RotatedFlat(bs: seq<array<byte>>)
    requires bs != []
    ensures Flat(bs) == bs[0][..] + Flat(bs[1..]) && Flat(Rotated(bs)) == Flat(bs[1..]) + bs[0][..]
    ensures Size(Rotated(bs)) == Size(bs)
  {
    FlatAppend(bs[1..], bs[0]);
    FlatAt(bs, 0);
    assert Flat(bs[..0]) == [];
  }

  lemma CursorRotated(bs: seq<array<byte>>, c: Cursor, cs: seq<array<byte>>, d: Cursor)
    requires Within(bs, c) && c.block > 0 && cs == Rotated(bs) && d.block == c.block - 1 && d.at == c.at
    ensures Offset(bs, c.block) >= bs[0].Length && Offset(cs, d.block) == Offset(bs, c.block) - bs[0].Length
    ensures Within(cs, d)
  {
    RunOn(bs, 1, c.block);
    RunShared(bs[1..], cs, d.block);
  }

  /** A cursor `len` bytes further on. */
  method AdjustIndex(bs: seq<array<byte>>, len: nat, from: Cursor) returns (to: Cursor)
    requires Within(bs, from) && Position(bs, from) + len < Size(bs)
    ensures Within(bs, to) && Position(bs, to) == Position(bs, from) + len && from.block <= to.block
  {
    var remain := bs[from.block].Length - from.at;
    if remain > len {
      to := from.(at := from.at + len);
    } else {
      var left: nat := len - remain;
      var i: nat := from.block + 1;
      while bs[i].Length <= left
        invariant from.block < i < |bs| && Offset(bs, i) + left == Position(bs, from) + len
        decreases |bs| - i
      {
        left := left - bs[i].Length;
        i := i + 1;
      }
      to := Cursor(i, left);
    }
  }

  /** `std::copy` into one block. */
  method CopyInto(block: array<byte>, ghost bs: seq<array<byte>>, ghost i: nat, at: nat, data: seq<byte>)
    requires Distinct(bs) && i < |bs| && bs[i] == block && at + |data| <= block.Length
    modifies block
    ensures Offset(bs, i) + at + |data| <= Size(bs)
    ensures Flat(bs) == Overwrite(old(Flat(bs)), Offset(bs, i) + at, data)
  {
    FlatAt(bs, i);
    ghost var before, after := Flat(bs[..i]), Flat(bs[i + 1..]);
    ghost var was := block[..];
    forall k | 0 <= k < |data| {
      block[at + k] := data[k];
    }
    assert block[..] == Overwrite(was, at, data);
    assert Flat(bs[..i]) == before;
    assert Flat(bs[i + 1..]) == after;
    FlatAt(bs, i);
    OverwriteInside(before, was, after, at, data);
  }

  /** The copying loop of `append`: `data` from the cursor on. */
  method CopyBlocks(bs: seq<array<byte>>, at: Cursor, data: seq<byte>)
    requires Distinct(bs) && Within(bs, at) && Position(bs, at) + |data| < Size(bs)
    modifies bs
    ensures Flat(bs) == Overwrite(old(Flat(bs)), Position(bs, at), data)
  {
    ghost var start, to := Flat(bs), Position(bs, at);
    var first := at.block;
    var remain := bs[first].Length - at.at;
    if remain > |data| {
      CopyInto(bs[first], bs, first, at.at, data);
    } else {
      CopyInto(bs[first], bs, first, at.at, data[..remain]);
      var i: nat, done: nat := first + 1, remain;
      while bs[i].Length <= |data| - done
        invariant i < |bs| && done <= |data| && Offset(bs, i) == to + done
        invariant Flat(bs) == Overwrite(start, to, data[..done])
        decreases |bs| - i
      {
        var next := done + bs[i].Length;
        CopyNext(bs[i], bs, i, 0, start, to, data, done, next);
        i, done := i + 1, next;
      }
      CopyNext(bs[i], bs, i, 0, start, to, data, done, |data|);
      assert data[..|data|] == data;
    }
  }

  method CopyNext(block: array<byte>, ghost bs: seq<array<byte>>, ghost i: nat, at: nat,
                  ghost start: seq<byte>, ghost to: nat, data: seq<byte>, done: nat, next: nat)
    requires Distinct(bs) && i < |bs| && bs[i] == block && done <= next <= |data| && at + (next - done) <= block.Length
    requires to + |data| <= |start| && Offset(bs, i) + at == to + done
    requires Flat(bs) == Overwrite(start, to, data[..done])
    modifies block
    ensures Flat(bs) == Overwrite(start, to, data[..next])
  {
    OverwriteOn(start, to, data[..done], data[done..next]);
    assert data[..done] + data[done..next] == data[..next];
    CopyInto(block, bs, i, at, data[done..next]);
  }

  lemma TakeMore(bs: seq<array<byte>>, i: nat, from: nat, data: seq<byte>, k: nat)
    requires i < |bs| && k <= bs[i].Length && Offset(bs, i) == from + |data| <= Size(bs)
    requires data == Flat(bs)[from..from + |data|]
    ensures from + |data| + k <= Size(bs) && data + bs[i][..k] == Flat(bs)[from..from + |data| + k]
  {
    FlatSlice(bs, i, 0, k);
    assert bs[i][..k] == bs[i][0..k];
    var s := Flat(bs);
    assert s[from..from + |data| + k] == s[from..from + |data|] + s[from + |data|..from + |data| + k];
  }

  /** The copying loop of `peek`: `n` bytes from the cursor on. */
  method TakeBlocks(bs: seq<array<byte>>, at: Cursor, n: nat) returns (data: seq<byte>)
    requires Within(bs, at) && Position(bs, at) + n < Size(bs)
    ensures data == Flat(bs)[Position(bs, at)..Position(bs, at) + n]
  {
    ghost var from := Position(bs, at);
    var first := at.block;
    var remain := bs[first].Length - at.at;
    if remain > n {
      data := bs[first][at.at..at.at + n];
      FlatSlice(bs, first, at.at, at.at + n);
    } else {
      data := bs[first][at.at..bs[first].Length];
      FlatSlice(bs, first, at.at, bs[first].Length);
      var i: nat := first + 1;
      while bs[i].Length <= n - |data|
        invariant i < |bs| && |data| <= n && Offset(bs, i) == from + |data|
        invariant data == Flat(bs)[from..from + |data|]
        decreases |bs| - i
      {
        TakeMore(bs, i, from, data, bs[i].Length);
        data := data + bs[i][..bs[i].Length];
        i := i + 1;
      }
      TakeMore(bs, i, from, data, n - |data|);
      data := data + bs[i][..n - |data|];
    }
  }

  /** Distinct blocks of `size` bytes each, all of them in `repr`. */
  ghost predicate Stored(bs: seq<array<byte>>, size: nat, repr: set<array<byte>>) {
    StoredSeal(bs, size, repr).Kept?
  }

  ghost function StoredSeal(bs: seq<array<byte>>, size: nat, repr: set<array<byte>>): Seal {
    if forall k: nat {:trigger Open(k)} :: Open(k) ==>
      Distinct(bs) && forall i :: 0 <= i < |bs| ==> bs[i].Length == size && bs[i] in repr
    then Kept else Broken
  }

  lemma StoredOne(b: array<byte>, repr: set<array<byte>>)
    requires b in repr
    ensures Stored([b], b.Length, repr)
  {
  }

  lemma StoredAppend(bs: seq<array<byte>>, size: nat, repr: set<array<byte>>, b: array<byte>)
    requires Stored(bs, size, repr) && b !in repr && b.Length == size
    ensures Stored(bs + [b], size, repr + {b})
  {
    assert Open(0);
  }

  lemma StoredRotated(bs: seq<array<byte>>, size: nat, repr: set<array<byte>>)
    requires Stored(bs, size, repr) && bs != []
    ensures Stored(Rotated(bs), size, repr)
  {
    assert Open(0);
  }

  lemma StoredKept(bs: seq<array<byte>>, size: nat, repr: set<array<byte>>, n: nat)
    requires Stored(bs, size, repr) && n <= |bs|
    ensures Stored(bs[..n], size, repr) && forall i :: 0 <= i < |bs| ==> bs[i].Length == size
  {
    assert Open(0);
  }

  lemma StoredIn(bs: seq<array<byte>>, size: nat, repr: set<array<byte>>)
    requires Stored(bs, size, repr)
    ensures Distinct(bs) && forall i :: 0 <= i < |bs| ==> bs[i].Length == size && bs[i] in repr
  {
    assert Open(0);
  }

  /** The blocks hold the bytes `c` between the two cursors and the bytes `t` from the second one on. */
  ghost predicate Holds(bs: seq<array<byte>>, r: Cursor, w: Cursor, c: seq<byte>, t: seq<byte>)
    reads bs
  {
    HoldsSeal(bs, r, w, c, t).Kept?
  }

  ghost function HoldsSeal(bs: seq<array<byte>>, r: Cursor, w: Cursor, c: seq<byte>, t: seq<byte>): Seal
    reads bs
  {
    if forall k: nat {:trigger Open(k)} :: Open(k) ==>
      && Within(bs, r) && Within(bs, w) && Position(bs, w) == Position(bs, r) + |c|
      && Position(bs, r) <= Size(bs) && Flat(bs)[Position(bs, r)..] == c + t
    then Kept else Broken
  }

  lemma HoldsOf(bs: seq<array<byte>>, r: Cursor, w: Cursor, c: seq<byte>, t: seq<byte>)
    requires Within(bs, r) && Within(bs, w) && Position(bs, w) == Position(bs, r) + |c|
    requires Position(bs, r) <= Size(bs) && Flat(bs)[Position(bs, r)..] == c + t
    ensures Holds(bs, r, w, c, t)
  {
  }

  lemma HoldsMeans(bs: seq<array<byte>>, r: Cursor, w: Cursor, c: seq<byte>, t: seq<byte>)
    requires Holds(bs, r, w, c, t)
    ensures Within(bs, r) && Position(bs, r) <= Size(bs) && Flat(bs)[Position(bs, r)..] == c + t
  {
    assert Open(0);
  }

  lemma HoldsSlices(bs: seq<array<byte>>, r: Cursor, w: Cursor, c: seq<byte>, t: seq<byte>)
    requires Holds(bs, r, w, c, t)
    ensures Within(bs, r) && Within(bs, w) && Position(bs, r) <= Position(bs, w) <= Size(bs)
    ensures Flat(bs)[Position(bs, r)..Position(bs, w)] == c && Flat(bs)[Position(bs, w)..] == t
  {
    HoldsSpace(bs, r, w, c, t);
    HoldsMeans(bs, r, w, c, t);
    SliceApart(Flat(bs), Position(bs, r), c, t);
  }

  lemma SliceApart(s: seq<byte>, from: nat, c: seq<byte>, t: seq<byte>)
    requires from <= |s| && s[from..] == c + t
    ensures s[from..from + |c|] == c && s[from + |c|..] == t
  {
    assert s[from..from + |c|] == s[from..][..|c|] && s[from + |c|..] == s[from..][|c|..];
  }

  lemma CursorShared(bs: seq<array<byte>>, cs: seq<array<byte>>, c: Cursor)
    requires Within(bs, c) && bs <= cs
    ensures Within(cs, c) && Position(cs, c) == Position(bs, c)
  {
    RunShared(bs, cs, c.block);
  }

  lemma HoldsSpace(bs: seq<array<byte>>, r: Cursor, w: Cursor, c: seq<byte>, t: seq<byte>)
    requires Holds(bs, r, w, c, t)
    ensures Within(bs, r) && Within(bs, w) && r.block <= w.block && t != []
    ensures Position(bs, w) == Position(bs, r) + |c| && Size(bs) == Position(bs, w) + |t|
  {
    assert Open(0);
    OffsetMono(bs, w.block + 1, |bs|);
    if w.block < r.block {
      OffsetMono(bs, w.block + 1, r.block);
    }
  }

  lemma HoldsInit(bs: seq<array<byte>>)
    requires bs != [] && bs[0].Length > 0
    ensures Holds(bs, Cursor(0, 0), Cursor(0, 0), [], Flat(bs))
  {
    OffsetMono(bs, 1, |bs|);
  }

  lemma HoldsAppend(bs: seq<array<byte>>, r: Cursor, w: Cursor, c: seq<byte>, t: seq<byte>, b: array<byte>)
    requires Holds(bs, r, w, c, t)
    ensures Holds(bs + [b], r, w, c, t + b[..]) && Size(bs + [b]) == Size(bs) + b.Length
    ensures r.block < |bs| && Offset(bs + [b], r.block) == Offset(bs, r.block)
  {
    HoldsSpace(bs, r, w, c, t);
    HoldsMeans(bs, r, w, c, t);
    FlatAppend(bs, b);
    var cs := bs + [b];
    CursorShared(bs, cs, r);
    CursorShared(bs, cs, w);
    SliceAppend(Flat(bs), Position(bs, r), c, t, b[..]);
    HoldsOf(cs, r, w, c, t + b[..]);
  }

  lemma SliceAppend(s: seq<byte>, from: nat, c: seq<byte>, t: seq<byte>, more: seq<byte>)
    requires from <= |s| && s[from..] == c + t
    ensures (s + more)[from..] == c + (t + more)
  {
  }

  lemma SliceRotated(first: seq<byte>, rest: seq<byte>, from: nat, c: seq<byte>, t: seq<byte>)
    requires |first| <= from <= |first| + |rest| && (first + rest)[from..] == c + t
    ensures (rest + first)[from - |first|..] == c + (t + first)
  {
    assert (first + rest)[from..] == rest[from - |first|..];
    SliceAppend(rest, from - |first|, c, t, first);
  }

  /** The first block, read to its end, goes to the back. */
  lemma HoldsRotated(bs: seq<array<byte>>, r: Cursor, w: Cursor, c: seq<byte>, t: seq<byte>,
                     cs: seq<array<byte>>, r': Cursor, w': Cursor)
    requires Holds(bs, r, w, c, t) && bs != [] && cs == Rotated(bs)
    requires r'.block == r.block - 1 && r'.at == r.at && w'.block == w.block - 1 && w'.at == w.at
    ensures r.block < |bs| && Holds(cs, r', w', c, t + bs[0][..])
    ensures Size(cs) == Size(bs) && Offset(cs, r'.block) == Offset(bs, r.block) - bs[0].Length
  {
    HoldsSpace(bs, r, w, c, t);
    HoldsMeans(bs, r, w, c, t);
    RotatedFlat(bs);
    CursorRotated(bs, r, cs, r');
    CursorRotated(bs, w, cs, w');
    SliceRotated(bs[0][..], Flat(bs[1..]), Position(bs, r), c, t);
    HoldsOf(cs, r', w', c, t + bs[0][..]);
  }

  /** Only some first blocks are kept, the second cursor's among them. */
  lemma HoldsKept(bs: seq<array<byte>>, r: Cursor, w: Cursor, c: seq<byte>, t: seq<byte>, cs: seq<array<byte>>, t': seq<byte>)
    requires Holds(bs, r, w, c, t) && cs <= bs && w.block <= |bs|
    requires t' != [] && t' <= t && Size(cs) == Position(bs, w) + |t'|
    ensures Holds(cs, r, w, c, t')
  {
    HoldsSpace(bs, r, w, c, t);
    HoldsMeans(bs, r, w, c, t);
    RunShared(bs, cs, |cs|);
    if |cs| <= w.block {
      OffsetMono(bs, |cs|, w.block);
    }
    RunOn(bs, |cs|, |bs|);
    CursorShared(cs, bs, r);
    CursorShared(cs, bs, w);
    SliceFront(Flat(cs), Run(bs[|cs|..], |bs| - |cs|), Position(bs, r), c, t);
    HoldsOf(cs, r, w, c, t');
  }

  lemma SliceFront(front: seq<byte>, rest: seq<byte>, from: nat, c: seq<byte>, t: seq<byte>)
    requires from + |c| <= |front| && (front + rest)[from..] == c + t
    ensures |front| - from - |c| <= |t| && front[from..] == c + t[..|front| - from - |c|]
  {
    assert front[from..] == (front + rest)[from..][..|front| - from];
  }

  lemma {:induction false} OffsetEven(bs: seq<array<byte>>, size: nat, i: nat)
    requires i <= |bs| && forall k :: 0 <= k < |bs| ==> bs[k].Length == size
    ensures Offset(bs, i) == i * size
  {
    if i > 0 {
      OffsetEven(bs, size, i - 1);
    }
  }

  lemma HoldsWritten(bs: seq<array<byte>>, r: Cursor, w: Cursor, c: seq<byte>, t: seq<byte>, n: nat, w': Cursor)
    requires Holds(bs, r, w, c, t) && n <= |t|
    requires Within(bs, w') && w.block <= |bs| && Position(bs, w') == Position(bs, w) + n
    ensures Holds(bs, r, w', c + t[..n], t[n..])
  {
    assert Open(0);
    assert c + t == (c + t[..n]) + t[n..];
  }

  lemma HoldsRead(bs: seq<array<byte>>, r: Cursor, w: Cursor, c: seq<byte>, t: seq<byte>, n: nat, r': Cursor)
    requires Holds(bs, r, w, c, t) && n <= |c|
    requires Within(bs, r') && r.block <= |bs| && Position(bs, r') == Position(bs, r) + n
    ensures Holds(bs, r', w, c[n..], t)
  {
    assert Open(0);
    assert (c + t)[n..] == c[n..] + t;
    assert Flat(bs)[Position(bs, r)..][n..] == Flat(bs)[Position(bs, r) + n..];
  }

  /** Puts `data` at the second cursor, which stays. */
  method Put(bs: seq<array<byte>>, ghost r: Cursor, w: Cursor, ghost c: seq<byte>, ghost t: seq<byte>, data: seq<byte>)
    requires Holds(bs, r, w, c, t) && Distinct(bs) && |data| < |t|
    modifies bs
    ensures Holds(bs, r, w, c, data + t[|data|..])
  {
    HoldsSpace(bs, r, w, c, t);
    assert Open(0);
    ghost var s := Flat(bs);
    CopyBlocks(bs, w, data);
    OverwriteSlice(s, Position(bs, r), c, t, data);
  }

  lemma OverwriteSlice(s: seq<byte>, from: nat, c: seq<byte>, t: seq<byte>, data: seq<byte>)
    requires from <= |s| && s[from..] == c + t && |data| <= |t|
    ensures Overwrite(s, from + |c|, data)[from..] == c + (data + t[|data|..])
  {
    var u := Overwrite(s, from + |c|, data);
    forall i | 0 <= i < |c + t|
      ensures u[from..][i] == (c + (data + t[|data|..]))[i]
    {
      assert s[from + i] == (c + t)[i];
    }
  }

  /** The first `n` bytes between the cursors. */
  method Take(bs: seq<array<byte>>, r: Cursor, ghost w: Cursor, ghost c: seq<byte>, ghost t: seq<byte>, n: nat)
    returns (data: seq<byte>)
    requires Holds(bs, r, w, c, t) && n <= |c|
    ensures data == c[..n]
  {
    HoldsSpace(bs, r, w, c, t);
    data := TakeBlocks(bs, r, n);
    assert Open(0);
    ghost var from := Position(bs, r);
    assert Flat(bs)[from..from + n] == Flat(bs)[from..][..n] == (c + t)[..n] == c[..n];
  }
}
