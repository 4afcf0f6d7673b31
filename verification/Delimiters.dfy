/** Frames that end in a delimiter: what one call of the decoder takes from the bytes it is given. */
module Delimiters {
  import opened Words
  import opened Endian

  type Delimiter = d: seq<byte> | d != [] witness [0]

  predicate OccursAt(s: seq<byte>, d: Delimiter, i: nat) {
    i + |d| <= |s| && s[i..i + |d|] == d
  }

  /** `i` is the first place where `d` occurs, or -1 if there is none. */
  ghost predicate IsIndex(s: seq<byte>, d: Delimiter, i: int) {
    && (i >= 0 ==> OccursAt(s, d, i))
    && (i < 0 ==> i == -1 && forall j: nat :: !OccursAt(s, d, j))
    && forall j: nat :: j < i ==> !OccursAt(s, d, j)
  }

  function IndexFrom(s: seq<byte>, d: Delimiter, i: nat): int
    decreases |s| - i
  {
    if OccursAt(s, d, i) then i else if i >= |s| then -1 else IndexFrom(s, d, i + 1)
  }

  function Index(s: seq<byte>, d: Delimiter): int {
    IndexFrom(s, d, 0)
  }

  lemma {:induction false} IndexFromMeans(s: seq<byte>, d: Delimiter, i: nat)
    requires forall j: nat :: j < i ==> !OccursAt(s, d, j)
    ensures IsIndex(s, d, IndexFrom(s, d, i))
    decreases |s| - i
  {
    if !OccursAt(s, d, i) && i < |s| {
      IndexFromMeans(s, d, i + 1);
    }
  }

  lemma IndexMeans(s: seq<byte>, d: Delimiter)
    ensures IsIndex(s, d, Index(s, d))
  {
    IndexFromMeans(s, d, 0);
  }

  lemma IndexUnique(s: seq<byte>, d: Delimiter, i: int)
    requires IsIndex(s, d, i)
    ensures i == Index(s, d)
  {
    IndexMeans(s, d);
  }

  /** `max_frame_length_ + 1` in 32 bits, taken as an `int`: the first length that is too long. */
  function Bound(max: nat): int
    requires max < TWO_32
  {
    if max + 1 == TWO_32 then 0 else if max + 1 >= 0x8000_0000 then max + 1 - TWO_32 else max + 1
  }

  /** A frame of `n` bytes is short enough. */
  predicate Allowed(max: nat, n: nat) {
    n <= max && max < 0x7FFF_FFFF
  }

  /** Below the bound is at most the maximum, as long as the sum is positive. */
  lemma BoundMeans(max: nat, n: nat)
    requires max < TWO_32
    ensures n < Bound(max) <==> Allowed(max, n)
  {
  }

  datatype Config = Config(max: nat, delimiters: seq<Delimiter>, strip: bool) {
    predicate Valid() {
      max < TWO_32
    }
  }

  /** A frame to cut off: its body and the delimiter behind it. */
  datatype Piece = Piece(body: seq<byte>, delim: Delimiter) {
    function Whole(): seq<byte> {
      body + delim
    }
  }

  datatype Cut = NoCut | Cut(at: nat, delim: Delimiter)

  /** What the loop over the first `n` delimiters finds. */
  function Earliest(cfg: Config, s: seq<byte>, n: nat): Cut
    requires cfg.Valid() && n <= |cfg.delimiters|
  {
    if n == 0 then NoCut
    else
      var best, d := Earliest(cfg, s, n - 1), cfg.delimiters[n - 1];
      var i := Index(s, d);
      if i >= 0 && i < (if best.Cut? then best.at else Bound(cfg.max)) then Cut(i, d) else best
  }

  /** `d` is the first of the delimiters that occur at `at`, and none occurs before. */
  ghost predicate CutHere(cfg: Config, s: seq<byte>, at: nat, d: Delimiter, n: nat)
    requires n <= |cfg.delimiters|
  {
    && OccursAt(s, d, at)
    && (forall k, i: nat :: 0 <= k < n && i < at ==> !OccursAt(s, cfg.delimiters[k], i))
    && exists k :: 0 <= k < n && cfg.delimiters[k] == d && forall j :: 0 <= j < k ==> !OccursAt(s, cfg.delimiters[j], at)
  }

  /** No delimiter occurs where a frame of allowed length would end. */
  ghost predicate NoneWithin(cfg: Config, s: seq<byte>, n: nat)
    requires cfg.Valid() && n <= |cfg.delimiters|
  {
    forall k, i: nat :: 0 <= k < n && i <= cfg.max < 0x7FFF_FFFF ==> !OccursAt(s, cfg.delimiters[k], i)
  }

  lemma {:induction false} EarliestMeans(cfg: Config, s: seq<byte>, n: nat)
    requires cfg.Valid() && n <= |cfg.delimiters|
    ensures match Earliest(cfg, s, n)
            case NoCut => NoneWithin(cfg, s, n)
            case Cut(at, d) => Allowed(cfg.max, at) && CutHere(cfg, s, at, d, n)
  {
    if n > 0 {
      EarliestMeans(cfg, s, n - 1);
      IndexMeans(s, cfg.delimiters[n - 1]);
    }
  }

  lemma EarliestUnique(cfg: Config, s: seq<byte>, at: nat, d: Delimiter)
    requires cfg.Valid() && Allowed(cfg.max, at) && CutHere(cfg, s, at, d, |cfg.delimiters|)
    ensures Earliest(cfg, s, |cfg.delimiters|) == Cut(at, d)
  {
    EarliestMeans(cfg, s, |cfg.delimiters|);
    var k :| 0 <= k < |cfg.delimiters| && cfg.delimiters[k] == d && forall j :: 0 <= j < k ==> !OccursAt(s, cfg.delimiters[j], at);
    assert OccursAt(s, cfg.delimiters[k], at);
  }

  /** The frames fired, the bytes left, and whether the loop goes on forever on them. */
  datatype Outcome = Outcome(frames: seq<seq<byte>>, rest: seq<byte>, spins: bool)

  function Fired(cfg: Config, p: Piece): seq<byte> {
    if cfg.strip then p.body else p.Whole()
  }

  function Prepend(frames: seq<seq<byte>>, o: Outcome): Outcome {
    Outcome(frames + o.frames, o.rest, o.spins)
  }

  lemma CutFits(cfg: Config, s: seq<byte>)
    requires cfg.Valid()
    ensures var c := Earliest(cfg, s, |cfg.delimiters|); c.Cut? ==> OccursAt(s, c.delim, c.at)
  {
    EarliestMeans(cfg, s, |cfg.delimiters|);
  }

  /** One call of `decode`. */
  function Decoded(cfg: Config, s: seq<byte>): Outcome
    requires cfg.Valid()
    decreases |s|
  {
    CutFits(cfg, s);
    if s == [] then Outcome([], [], false)
    else
      match Earliest(cfg, s, |cfg.delimiters|)
      case NoCut => Outcome([], s, true)
      case Cut(at, d) => Prepend([Fired(cfg, Piece(s[..at], d))], Decoded(cfg, s[at + |d|..]))
  }

  /** The pieces that a call cuts off. */
  function Pieces(cfg: Config, s: seq<byte>): seq<Piece>
    requires cfg.Valid()
    decreases |s|
  {
    CutFits(cfg, s);
    if s == [] then []
    else
      match Earliest(cfg, s, |cfg.delimiters|)
      case NoCut => []
      case Cut(at, d) => [Piece(s[..at], d)] + Pieces(cfg, s[at + |d|..])
  }

  function Join(ps: seq<Piece>): seq<byte> {
    if ps == [] then [] else ps[0].Whole() + Join(ps[1..])
  }

  function AllFired(cfg: Config, ps: seq<Piece>): seq<seq<byte>> {
    if ps == [] then [] else [Fired(cfg, ps[0])] + AllFired(cfg, ps[1..])
  }

  /** In the stream of the pieces and then `rest`, every piece has an allowed length, and the first
      place from its start on where any delimiter occurs, overlaps with what follows included, is its
      end; of the delimiters that occur there its own is the first in the list. */
  ghost predicate Clean(cfg: Config, ps: seq<Piece>, rest: seq<byte>)
    requires cfg.Valid()
  {
    ps != [] ==>
      && Allowed(cfg.max, |ps[0].body|)
      && CutHere(cfg, Join(ps) + rest, |ps[0].body|, ps[0].delim, |cfg.delimiters|)
      && Clean(cfg, ps[1..], rest)
  }

  /** Nothing is lost or made up: the pieces and what is left are the bytes that came in, every cut is
      at the first delimiter, the frames are those of the pieces; and the loop spins exactly when
      something is left, which is when no delimiter ends an allowed frame. */
  lemma {:induction false} Reassembly(cfg: Config, s: seq<byte>)
    requires cfg.Valid()
    ensures var o := Decoded(cfg, s);
            && Join(Pieces(cfg, s)) + o.rest == s && o.frames == AllFired(cfg, Pieces(cfg, s))
            && Clean(cfg, Pieces(cfg, s), o.rest) && NoneWithin(cfg, o.rest, |cfg.delimiters|)
            && (o.spins <==> o.rest != [])
    decreases |s|
  {
    CutFits(cfg, s);
    EarliestMeans(cfg, s, |cfg.delimiters|);
    match Earliest(cfg, s, |cfg.delimiters|)
    case NoCut =>
      assert [] + s == s;
    case Cut(at, d) =>
      var p, rest := Piece(s[..at], d), s[at + |d|..];
      Reassembly(cfg, rest);
      SplitAt(s, at, d);
      PieceNext(cfg, p, Pieces(cfg, rest), Decoded(cfg, rest).rest, s);
      assert Pieces(cfg, s) == [p] + Pieces(cfg, rest);
  }

  lemma SplitAt(s: seq<byte>, at: nat, d: Delimiter)
    requires OccursAt(s, d, at)
    ensures s == (s[..at] + d) + s[at + |d|..]
  {
  }

  lemma PieceNext(cfg: Config, p: Piece, ps: seq<Piece>, rest: seq<byte>, s: seq<byte>)
    requires cfg.Valid() && Clean(cfg, ps, rest) && s == p.Whole() + (Join(ps) + rest)
    requires Allowed(cfg.max, |p.body|) && CutHere(cfg, s, |p.body|, p.delim, |cfg.delimiters|)
    ensures Join([p] + ps) + rest == s && AllFired(cfg, [p] + ps) == [Fired(cfg, p)] + AllFired(cfg, ps)
    ensures Clean(cfg, [p] + ps, rest)
  {
    assert ([p] + ps)[1..] == ps;
    assert p.Whole() + Join(ps) + rest == p.Whole() + (Join(ps) + rest);
  }

  /** A clean stream is cut into its pieces, and then what follows is decoded; and no other is. */
  lemma {:induction false} CleanExactly(cfg: Config, ps: seq<Piece>, rest: seq<byte>)
    requires cfg.Valid() && NoneWithin(cfg, rest, |cfg.delimiters|)
    ensures Clean(cfg, ps, rest) <==> Pieces(cfg, Join(ps) + rest) == ps && Decoded(cfg, Join(ps) + rest).rest == rest
    decreases |ps|
  {
    var s := Join(ps) + rest;
    if Clean(cfg, ps, rest) {
      CleanPieces(cfg, ps, rest);
    }
    if Pieces(cfg, s) == ps && Decoded(cfg, s).rest == rest {
      Reassembly(cfg, s);
    }
  }

  lemma {:induction false} CleanPieces(cfg: Config, ps: seq<Piece>, rest: seq<byte>)
    requires cfg.Valid() && NoneWithin(cfg, rest, |cfg.delimiters|) && Clean(cfg, ps, rest)
    ensures Pieces(cfg, Join(ps) + rest) == ps
    ensures Decoded(cfg, Join(ps) + rest) == Outcome(AllFired(cfg, ps), rest, rest != [])
    decreases |ps|
  {
    if ps == [] {
      assert [] + rest == rest;
      Unfound(cfg, rest);
    } else {
      var s, p, more := Join(ps) + rest, ps[0], Join(ps[1..]) + rest;
      Associative(p.Whole(), Join(ps[1..]), rest);
      EarliestUnique(cfg, s, |p.body|, p.delim);
      CleanPieces(cfg, ps[1..], rest);
      CutOne(cfg, p, more);
      FirstOf(ps);
      assert AllFired(cfg, ps) == [Fired(cfg, p)] + AllFired(cfg, ps[1..]);
    }
  }

  lemma Associative(a: seq<byte>, b: seq<byte>, c: seq<byte>)
    ensures (a + b) + c == a + (b + c)
  {
  }

  lemma FirstOf(ps: seq<Piece>)
    requires ps != []
    ensures [ps[0]] + ps[1..] == ps
  {
  }

  lemma CutOne(cfg: Config, p: Piece, more: seq<byte>)
    requires cfg.Valid() && Earliest(cfg, p.Whole() + more, |cfg.delimiters|) == Cut(|p.body|, p.delim)
    ensures Pieces(cfg, p.Whole() + more) == [p] + Pieces(cfg, more)
    ensures Decoded(cfg, p.Whole() + more) == Prepend([Fired(cfg, p)], Decoded(cfg, more))
  {
    Joined(p.body, p.delim, more);
  }

  lemma Joined(body: seq<byte>, d: Delimiter, more: seq<byte>)
    ensures ((body + d) + more)[..|body|] == body && ((body + d) + more)[|body| + |d|..] == more
  {
  }

  lemma Unfound(cfg: Config, s: seq<byte>)
    requires cfg.Valid() && NoneWithin(cfg, s, |cfg.delimiters|)
    ensures Earliest(cfg, s, |cfg.delimiters|) == NoCut
  {
    EarliestMeans(cfg, s, |cfg.delimiters|);
  }

  /** From 2^31 - 1 on the sum is not positive as an `int`, and no delimiter is ever near enough. */
  lemma HugeMaximum(cfg: Config, s: seq<byte>)
    requires cfg.Valid()
    ensures Bound(cfg.max) <= 0 <==> cfg.max >= 0x7FFF_FFFF
    ensures cfg.max >= 0x7FFF_FFFF ==> Decoded(cfg, s) == Outcome([], s, s != [])
  {
    if cfg.max >= 0x7FFF_FFFF {
      Unfound(cfg, s);
    }
  }

  /** One body and its delimiter, which does not occur before: the frame is fired if the body has at most
      the maximum, and otherwise nothing is, and the call never returns. */
  lemma MaximumExactly(cfg: Config, d: Delimiter, body: seq<byte>)
    requires cfg.Valid() && cfg.delimiters == [d] && cfg.max < 0x7FFF_FFFF
    requires forall i: nat :: i < |body| ==> !OccursAt(body + d, d, i)
    ensures Decoded(cfg, body + d) == if |body| <= cfg.max then Outcome([if cfg.strip then body else body + d], [], false)
                                      else Outcome([], body + d, true)
  {
    var s, p := body + d, Piece(body, d);
    assert OccursAt(s, d, |body|);
    if |body| <= cfg.max {
      assert cfg.delimiters[0] == d;
      EarliestUnique(cfg, s, |body|, d);
      assert s == p.Whole() + [];
      CutOne(cfg, p, []);
    } else {
      Unfound(cfg, s);
    }
  }

  /** The call returns exactly on the streams that are clean to their end. */
  lemma ReturnsExactly(cfg: Config, s: seq<byte>)
    requires cfg.Valid()
    ensures !Decoded(cfg, s).spins <==> exists ps :: Clean(cfg, ps, []) && Join(ps) == s
  {
    Reassembly(cfg, s);
    if !Decoded(cfg, s).spins {
      assert Clean(cfg, Pieces(cfg, s), []) && Join(Pieces(cfg, s)) == s;
    }
    if ps :| Clean(cfg, ps, []) && Join(ps) == s {
      CleanPieces(cfg, ps, []);
      assert Join(ps) + [] == s;
    }
  }

  /** A body that one delimiter can close: with the delimiter behind it, no earlier occurrence. */
  ghost predicate Closed(cfg: Config, body: seq<byte>, d: Delimiter)
    requires cfg.Valid()
  {
    Allowed(cfg.max, |body|) && forall i: nat :: i < |body| ==> !OccursAt(body + d, d, i)
  }

  function Delimited(bodies: seq<seq<byte>>, d: Delimiter): seq<Piece> {
    if bodies == [] then [] else [Piece(bodies[0], d)] + Delimited(bodies[1..], d)
  }

  /** The bodies, each with the delimiter behind it. */
  function Ended(bodies: seq<seq<byte>>, d: Delimiter): seq<seq<byte>> {
    if bodies == [] then [] else [bodies[0] + d] + Ended(bodies[1..], d)
  }

  /** With one delimiter, what follows cannot matter: the frames of some bodies, each with the delimiter
      behind it, are fired and the call returns, exactly if the delimiter can close each of them. */
  lemma OneDelimiter(cfg: Config, d: Delimiter, bodies: seq<seq<byte>>)
    requires cfg.Valid() && cfg.delimiters == [d]
    ensures var ps := Delimited(bodies, d);
            Decoded(cfg, Join(ps)) == Outcome(if cfg.strip then bodies else Ended(bodies, d), [], false)
            <==> forall b :: b in bodies ==> Closed(cfg, b, d)
  {
    var ps := Delimited(bodies, d);
    assert Join(ps) + [] == Join(ps);
    BodiesFired(cfg, d, bodies);
    if forall b :: b in bodies ==> Closed(cfg, b, d) {
      OneDelimiterClean(cfg, d, bodies);
      CleanPieces(cfg, ps, []);
    }
    if Decoded(cfg, Join(ps)) == Outcome(AllFired(cfg, ps), [], false) {
      Reassembly(cfg, Join(ps));
      OnlyDelimiter(cfg, d, Join(ps));
      DelimitedAll(bodies, d);
      FiredApart(cfg, d, Pieces(cfg, Join(ps)), ps);
      OneDelimiterClosed(cfg, d, bodies);
    }
  }

  /** Without its delimiter a frame is the body. */
  lemma {:induction false} BodiesFired(cfg: Config, d: Delimiter, bodies: seq<seq<byte>>)
    ensures AllFired(cfg, Delimited(bodies, d)) == if cfg.strip then bodies else Ended(bodies, d)
  {
    if bodies != [] {
      BodiesFired(cfg, d, bodies[1..]);
      assert Delimited(bodies, d)[1..] == Delimited(bodies[1..], d);
      assert bodies == [bodies[0]] + bodies[1..];
    }
  }

  ghost predicate AllEnd(ps: seq<Piece>, d: Delimiter) {
    forall k :: 0 <= k < |ps| ==> ps[k].delim == d
  }

  lemma {:induction false} DelimitedAll(bodies: seq<seq<byte>>, d: Delimiter)
    ensures AllEnd(Delimited(bodies, d), d)
  {
    if bodies != [] {
      DelimitedAll(bodies[1..], d);
    }
  }

  lemma {:induction false} OnlyDelimiter(cfg: Config, d: Delimiter, s: seq<byte>)
    requires cfg.Valid() && cfg.delimiters == [d]
    ensures AllEnd(Pieces(cfg, s), d)
    decreases |s|
  {
    CutFits(cfg, s);
    EarliestMeans(cfg, s, 1);
    if s != [] && Earliest(cfg, s, 1).Cut? {
      var c := Earliest(cfg, s, 1);
      OnlyDelimiter(cfg, d, s[c.at + |c.delim|..]);
    }
  }

  /** Frames that end in the same delimiter tell their pieces. */
  lemma {:induction false} FiredApart(cfg: Config, d: Delimiter, ps: seq<Piece>, qs: seq<Piece>)
    requires AllEnd(ps, d) && AllEnd(qs, d) && AllFired(cfg, ps) == AllFired(cfg, qs)
    ensures ps == qs
    decreases |ps|
  {
    if ps != [] && qs != [] {
      assert AllFired(cfg, ps)[1..] == AllFired(cfg, ps[1..]) && AllFired(cfg, qs)[1..] == AllFired(cfg, qs[1..]);
      FiredApart(cfg, d, ps[1..], qs[1..]);
      assert AllFired(cfg, ps)[0] == AllFired(cfg, qs)[0];
      SameBody(ps[0].body, qs[0].body, d);
      assert ps[0] == qs[0] && ps == [ps[0]] + ps[1..] && qs == [qs[0]] + qs[1..];
    }
  }

  lemma SameBody(a: seq<byte>, b: seq<byte>, d: Delimiter)
    ensures a + d == b + d ==> a == b
  {
    if a + d == b + d {
      assert |a| == |b|;
      assert (a + d)[..|a|] == a && (b + d)[..|b|] == b;
    }
  }

  lemma {:induction false} OneDelimiterClosed(cfg: Config, d: Delimiter, bodies: seq<seq<byte>>)
    requires cfg.Valid() && cfg.delimiters == [d] && Clean(cfg, Delimited(bodies, d), [])
    ensures forall b :: b in bodies ==> Closed(cfg, b, d)
  {
    if bodies != [] {
      var ps, b := Delimited(bodies, d), bodies[0];
      assert ps[1..] == Delimited(bodies[1..], d);
      OneDelimiterClosed(cfg, d, bodies[1..]);
      var s := Join(ps) + [];
      assert s == (b + d) + Join(ps[1..]);
      assert CutHere(cfg, s, |b|, d, 1);
      forall i: nat | i < |b|
        ensures !OccursAt(b + d, d, i)
      {
        assert !OccursAt(s, cfg.delimiters[0], i);
        assert i + |d| <= |b + d| ==> s[i..i + |d|] == (b + d)[i..i + |d|];
      }
      assert bodies == [b] + bodies[1..];
    }
  }

  lemma {:induction false} OneDelimiterClean(cfg: Config, d: Delimiter, bodies: seq<seq<byte>>)
    requires cfg.Valid() && cfg.delimiters == [d] && forall b :: b in bodies ==> Closed(cfg, b, d)
    ensures Clean(cfg, Delimited(bodies, d), [])
  {
    if bodies != [] {
      var ps, b := Delimited(bodies, d), bodies[0];
      assert b in bodies;
      assert ps[1..] == Delimited(bodies[1..], d);
      OneDelimiterClean(cfg, d, bodies[1..]);
      var s := Join(ps) + [];
      assert s == (b + d) + Join(ps[1..]);
      assert s[|b|..|b| + |d|] == d;
      forall i: nat | i < |b|
        ensures !OccursAt(s, d, i)
      {
        assert s[i..i + |d|] == (b + d)[i..i + |d|];
        assert !OccursAt(b + d, d, i);
      }
      assert cfg.delimiters[0] == d;
    }
  }
}
