/** Scatter and gather lists over the blocks. */
module Views {
  import opened Seals
  import opened Sequences
  import opened Endian
  import opened Blocks

  /** `asio::buffer`: a stretch of one block. */
  datatype View = View(block: array<byte>, at: nat, len: nat)

  predicate Fits(v: View) {
    v.at + v.len <= v.block.Length
  }

  ghost predicate AllFit(vs: seq<View>) {
    forall k :: 0 <= k < |vs| ==> Fits(vs[k])
  }

  /** What the first `n` views show, one after the other. */
  ghost function Gathered(vs: seq<View>, n: nat): seq<byte>
    requires n <= |vs| && AllFit(vs)
    reads set k | 0 <= k < |vs| :: vs[k].block
  {
    if n == 0 then [] else Gathered(vs, n - 1) + vs[n - 1].block[vs[n - 1].at..vs[n - 1].at + vs[n - 1].len]
  }

  lemma GatheredNext(vs: seq<View>, n: nat)
    requires 0 < n <= |vs| && AllFit(vs)
    ensures Gathered(vs, n) == Gathered(vs, n - 1) + vs[n - 1].block[vs[n - 1].at..vs[n - 1].at + vs[n - 1].len]
  {
  }

  /** The views, one after the other, show the bytes `s`. */
  ghost predicate Shows(vs: seq<View>, s: seq<byte>)
    reads set k | 0 <= k < |vs| :: vs[k].block
  {
    ShowsSeal(vs, s).Kept?
  }

  ghost function ShowsSeal(vs: seq<View>, s: seq<byte>): Seal
    reads set k | 0 <= k < |vs| :: vs[k].block
  {
    if forall k: nat {:trigger Open(k)} :: Open(k) ==> AllFit(vs) && Gathered(vs, |vs|) == s
    then Kept else Broken
  }

  lemma ShowsMeans(vs: seq<View>, s: seq<byte>)
    requires Shows(vs, s)
    ensures AllFit(vs) && Gathered(vs, |vs|) == s && |s| == Lengths(vs, |vs|)
  {
    assert Open(0);
    GatheredLength(vs, |vs|);
  }

  /** The views lie side by side on the blocks, the first one at the cursor. */
  ghost predicate Tiling(bs: seq<array<byte>>, from: Cursor, vs: seq<View>) {
    && Within(bs, from) && 1 <= |vs| <= |bs| - from.block && AllFit(vs)
    && (forall k :: 0 <= k < |vs| ==> vs[k].block == bs[from.block + k])
    && (forall k :: 0 <= k < |vs| ==> vs[k].at == if k == 0 then from.at else 0)
    && (forall k :: 0 <= k < |vs| - 1 ==> Ends(vs[k]))
  }

  predicate Ends(v: View) {
    v.at + v.len == v.block.Length
  }

  ghost predicate Tiles(bs: seq<array<byte>>, from: Cursor, vs: seq<View>) {
    TilesSeal(bs, from, vs).Kept?
  }

  ghost function TilesSeal(bs: seq<array<byte>>, from: Cursor, vs: seq<View>): Seal {
    if forall k: nat {:trigger Open(k)} :: Open(k) ==> Tiling(bs, from, vs) then Kept else Broken
  }

  /** The views go on to the end of the last block. */
  ghost predicate Onwards(bs: seq<array<byte>>, from: Cursor, vs: seq<View>) {
    OnwardsSeal(bs, from, vs).Kept?
  }

  ghost function OnwardsSeal(bs: seq<array<byte>>, from: Cursor, vs: seq<View>): Seal {
    if forall k: nat {:trigger Open(k)} :: Open(k) ==>
      Tiling(bs, from, vs) && |vs| == |bs| - from.block && Ends(vs[|vs| - 1])
    then Kept else Broken
  }

  /** Where view `k` begins and ends in the run. */
  ghost function Start(bs: seq<array<byte>>, from: Cursor, vs: seq<View>, k: nat): nat
    requires Tiling(bs, from, vs) && k < |vs|
  {
    Offset(bs, from.block + k) + vs[k].at
  }

  ghost function End(bs: seq<array<byte>>, from: Cursor, vs: seq<View>, k: nat): nat
    requires Tiling(bs, from, vs) && k < |vs|
  {
    Start(bs, from, vs, k) + vs[k].len
  }

  lemma TilesNext(bs: seq<array<byte>>, from: Cursor, vs: seq<View>, k: nat)
    requires Tiling(bs, from, vs) && k < |vs|
    ensures Start(bs, from, vs, k) == if k == 0 then Position(bs, from) else End(bs, from, vs, k - 1)
    ensures Ends(vs[k]) ==> End(bs, from, vs, k) == Offset(bs, from.block + k + 1)
  {
    if k > 0 {
      assert Ends(vs[k - 1]) && vs[k - 1].block == bs[from.block + k - 1];
    }
  }

  lemma TilesSlice(bs: seq<array<byte>>, from: Cursor, vs: seq<View>, k: nat)
    requires Tiling(bs, from, vs) && k < |vs|
    ensures End(bs, from, vs, k) <= Size(bs)
    ensures vs[k].block[vs[k].at..vs[k].at + vs[k].len] == Flat(bs)[Start(bs, from, vs, k)..End(bs, from, vs, k)]
  {
    FlatSlice(bs, from.block + k, vs[k].at, vs[k].at + vs[k].len);
  }

  /** Side by side views show one stretch of the run. */
  lemma {:induction false} TilesGather(bs: seq<array<byte>>, from: Cursor, vs: seq<View>, n: nat)
    requires Tiling(bs, from, vs) && 0 < n <= |vs|
    ensures Position(bs, from) <= End(bs, from, vs, n - 1) <= Size(bs)
    ensures Gathered(vs, n) == Flat(bs)[Position(bs, from)..End(bs, from, vs, n - 1)]
  {
    TilesNext(bs, from, vs, n - 1);
    TilesSlice(bs, from, vs, n - 1);
    GatheredNext(vs, n);
    if n > 1 {
      TilesGather(bs, from, vs, n - 1);
      JoinSlices(Flat(bs), Position(bs, from), End(bs, from, vs, n - 2), End(bs, from, vs, n - 1));
    }
  }

  lemma JoinSlices(s: seq<byte>, p: nat, q: nat, r: nat)
    requires p <= q <= r <= |s|
    ensures s[p..q] + s[q..r] == s[p..r]
  {
  }

  /** Views of whole blocks, the first one from the cursor, up to block `to`. */
  method Cover(bs: seq<array<byte>>, from: Cursor, to: nat) returns (vs: seq<View>)
    requires Within(bs, from) && from.block < to <= |bs|
    ensures Tiling(bs, from, vs) && |vs| == to - from.block && Ends(vs[|vs| - 1])
  {
    var i := from.block;
    vs := [View(bs[i], from.at, bs[i].Length - from.at)];
    i := i + 1;
    while i != to
      invariant from.block < i <= to && i == from.block + |vs|
      invariant Tiling(bs, from, vs) && Ends(vs[|vs| - 1])
    {
      vs := vs + [View(bs[i], 0, bs[i].Length)];
      i := i + 1;
    }
  }

  /** The socket fills the views in order: `data` lands at the cursor. */
  method Deliver(ghost bs: seq<array<byte>>, ghost w: Cursor, vs: seq<View>, data: seq<byte>)
    requires Distinct(bs) && Onwards(bs, w, vs) && w.block <= |bs| && Position(bs, w) + |data| <= Size(bs)
    modifies bs
    ensures Flat(bs) == Overwrite(old(Flat(bs)), Position(bs, w), data)
  {
    assert Open(0);
    ghost var start, to := Flat(bs), Position(bs, w);
    TilesNext(bs, w, vs, 0);
    var k: nat, done: nat := 0, 0;
    while done < |data|
      invariant done <= |data| && Flat(bs) == Overwrite(start, to, data[..done])
      invariant done < |data| ==> k < |vs| && to + done == Start(bs, w, vs, k)
      decreases |vs| - k
    {
      var n := Min(vs[k].len, |data| - done);
      CopyNext(vs[k].block, bs, w.block + k, vs[k].at, start, to, data, done, done + n);
      TilesNext(bs, w, vs, k);
      if k + 1 < |vs| {
        TilesNext(bs, w, vs, k + 1);
      }
      k, done := k + 1, done + n;
    }
    assert data[..done] == data;
  }

  /** The socket fills views from the second cursor on: `data` is then behind the queue. */
  method DeliverBehind(ghost bs: seq<array<byte>>, ghost r: Cursor, ghost w: Cursor, ghost c: seq<byte>, ghost t: seq<byte>,
                       vs: seq<View>, data: seq<byte>)
    requires Holds(bs, r, w, c, t) && Distinct(bs) && Onwards(bs, w, vs) && |data| <= |t|
    modifies bs
    ensures Holds(bs, r, w, c, data + t[|data|..])
  {
    HoldsSpace(bs, r, w, c, t);
    HoldsMeans(bs, r, w, c, t);
    ghost var s := Flat(bs);
    Deliver(bs, w, vs, data);
    OverwriteSlice(s, Position(bs, r), c, t, data);
    HoldsOf(bs, r, w, c, data + t[|data|..]);
  }

  /** The socket takes the first `n` bytes that the views show. */
  method Collect(vs: seq<View>, ghost s: seq<byte>, n: nat) returns (data: seq<byte>)
    requires Shows(vs, s) && n <= |s|
    ensures data == s[..n]
  {
    ShowsMeans(vs, s);
    data := [];
    var k := 0;
    while |data| < n
      invariant k <= |vs| && |data| <= n && data <= Gathered(vs, k) && (|data| < n ==> data == Gathered(vs, k))
      decreases |vs| - k
    {
      var v, m := vs[k], Min(vs[k].len, n - |data|);
      GatheredNext(vs, k + 1);
      TakeView(data, v, m);
      data := data + v.block[v.at..v.at + m];
      k := k + 1;
    }
    GatheredMono(vs, k, |vs|);
  }

  lemma TakeView(data: seq<byte>, v: View, m: nat)
    requires Fits(v) && m <= v.len
    ensures data + v.block[v.at..v.at + m] <= data + v.block[v.at..v.at + v.len]
  {
    assert v.block[v.at..v.at + m] == v.block[v.at..v.at + v.len][..m];
  }

  lemma {:induction false} GatheredMono(vs: seq<View>, i: nat, j: nat)
    requires AllFit(vs) && i <= j <= |vs|
    ensures Gathered(vs, i) <= Gathered(vs, j)
  {
    if i < j {
      GatheredMono(vs, i, j - 1);
    }
  }

  function Lengths(vs: seq<View>, n: nat): nat
    requires n <= |vs|
  {
    if n == 0 then 0 else Lengths(vs, n - 1) + vs[n - 1].len
  }

  lemma {:induction false} GatheredLength(vs: seq<View>, n: nat)
    requires AllFit(vs) && n <= |vs|
    ensures |Gathered(vs, n)| == Lengths(vs, n)
  {
    if n > 0 {
      GatheredLength(vs, n - 1);
    }
  }

  lemma TilesFront(bs: seq<array<byte>>, from: Cursor, vs: seq<View>, s: seq<byte>)
    requires Tiling(bs, from, vs) && Position(bs, from) <= Size(bs) && Flat(bs)[Position(bs, from)..] == s
    ensures Lengths(vs, |vs|) <= |s| && Gathered(vs, |vs|) == s[..Lengths(vs, |vs|)]
  {
    var n, p := Lengths(vs, |vs|), Position(bs, from);
    TilesStretch(bs, from, vs, Flat(bs), p, n);
    assert Flat(bs)[p..p + n] == s[..n];
  }

  lemma TilesStretch(bs: seq<array<byte>>, from: Cursor, vs: seq<View>, f: seq<byte>, p: nat, n: nat)
    requires Tiling(bs, from, vs) && f == Flat(bs) && p == Position(bs, from) && n == Lengths(vs, |vs|)
    ensures p + n <= |f| && Gathered(vs, |vs|) == f[p..p + n]
  {
    TilesGather(bs, from, vs, |vs|);
    GatheredLength(vs, |vs|);
  }

  lemma ShowsOf(vs: seq<View>, s: seq<byte>)
    requires AllFit(vs) && Gathered(vs, |vs|) == s
    ensures Shows(vs, s)
  {
  }

  lemma ShowsNothing(vs: seq<View>)
    requires AllFit(vs) && Lengths(vs, |vs|) == 0
    ensures Shows(vs, [])
  {
    GatheredLength(vs, |vs|);
  }

  lemma TilesMeans(bs: seq<array<byte>>, from: Cursor, vs: seq<View>)
    requires Tiles(bs, from, vs)
    ensures Tiling(bs, from, vs)
  {
    assert Open(0);
  }

  /** Views stay in place when blocks go to the back, or are added or dropped there. */
  lemma TilesMoved(bs: seq<array<byte>>, from: Cursor, vs: seq<View>,
                   held: seq<array<byte>>, cs: seq<array<byte>>, to: Cursor)
    requires Tiles(bs, from, vs) && from.at == to.at && |vs| <= |held|
    requires from.block + |held| <= |bs| && bs[from.block..from.block + |held|] == held
    requires to.block + |held| <= |cs| && cs[to.block..to.block + |held|] == held
    ensures Tiles(cs, to, vs)
  {
    assert Open(0);
    forall k | 0 <= k < |vs|
      ensures cs[to.block + k] == vs[k].block
    {
      assert held[k] == bs[from.block + k] && held[k] == cs[to.block + k];
    }
  }

  lemma OnwardsOf(bs: seq<array<byte>>, from: Cursor, vs: seq<View>)
    requires Tiling(bs, from, vs) && |vs| == |bs| - from.block && Ends(vs[|vs| - 1])
    ensures Onwards(bs, from, vs)
  {
  }

  lemma OnwardsShow(bs: seq<array<byte>>, from: Cursor, vs: seq<View>)
    requires Onwards(bs, from, vs) && Within(bs, from) && Position(bs, from) <= Size(bs)
    ensures Shows(vs, Flat(bs)[Position(bs, from)..])
  {
    assert Open(0);
    TilesNext(bs, from, vs, |vs| - 1);
    TilesGather(bs, from, vs, |vs|);
    ShowsOf(vs, Flat(bs)[Position(bs, from)..]);
  }

  /** Views onwards to the end have room for all that is behind the cursor. */
  lemma OnwardsLength(bs: seq<array<byte>>, from: Cursor, vs: seq<View>)
    requires Onwards(bs, from, vs)
    ensures Within(bs, from) && Position(bs, from) + Lengths(vs, |vs|) == Size(bs)
  {
    assert Open(0);
    TilesNext(bs, from, vs, |vs| - 1);
    TilesGather(bs, from, vs, |vs|);
    GatheredLength(vs, |vs|);
  }

  /** Views from the first cursor show the front of what the blocks hold. */
  lemma TilesShow(bs: seq<array<byte>>, r: Cursor, w: Cursor, c: seq<byte>, t: seq<byte>, vs: seq<View>)
    requires Holds(bs, r, w, c, t) && Tiles(bs, r, vs)
    ensures Lengths(vs, |vs|) <= |c + t| && Shows(vs, (c + t)[..Lengths(vs, |vs|)])
  {
    HoldsMeans(bs, r, w, c, t);
    TilesMeans(bs, r, vs);
    TilesFront(bs, r, vs, c + t);
    ShowsOf(vs, (c + t)[..Lengths(vs, |vs|)]);
  }

  /** All there is to write. */
  method CoverTail(bs: seq<array<byte>>, ghost r: Cursor, w: Cursor, ghost c: seq<byte>, ghost t: seq<byte>)
    returns (vs: seq<View>)
    requires Holds(bs, r, w, c, t)
    ensures Onwards(bs, w, vs) && Shows(vs, t)
  {
    HoldsSpace(bs, r, w, c, t);
    HoldsSlices(bs, r, w, c, t);
    vs := Cover(bs, w, |bs|);
    OnwardsOf(bs, w, vs);
    OnwardsShow(bs, w, vs);
  }

  /** All there is to read. */
  method CoverQueue(bs: seq<array<byte>>, r: Cursor, w: Cursor, ghost c: seq<byte>, ghost t: seq<byte>)
    returns (vs: seq<View>)
    requires Holds(bs, r, w, c, t)
    ensures Tiles(bs, r, vs) && Shows(vs, c) && |vs| == w.block + 1 - r.block
  {
    HoldsSpace(bs, r, w, c, t);
    HoldsSlices(bs, r, w, c, t);
    if r.block == w.block {
      vs := [View(bs[r.block], r.at, w.at - r.at)];
    } else {
      vs := Cover(bs, r, w.block);
      vs := vs + [View(bs[w.block], 0, w.at)];
    }
    TilesGather(bs, r, vs, |vs|);
  }
}
