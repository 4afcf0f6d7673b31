/** Frames cut by a length field: what one call of the decoder takes from the bytes it is given. */
module LengthField {
  import opened Words
  import opened Endian

  /** A sum that overflows at most once, in words of `m` values. */
  function Wrapped(x: nat, m: nat): nat {
    if x < m then x else x - m
  }

  datatype Config = Config(max: nat, offset: nat, width: nat, adjust: int, strip: nat, big: bool) {
    /** What the types of the fields and the fatal log lines ask for. */
    predicate Valid() {
      && max < TWO_32 && offset < TWO_32 && strip < TWO_32 && -0x8000_0000 < adjust < 0x8000_0000
      && (width == 1 || width == 2 || width == 4 || width == 8)
      && offset + width < TWO_32 && -adjust <= offset + width
    }

    function End(): nat {
      offset + width
    }

    /** The frame length that the code computes from the field: the adjustment is added to the end
        offset in 32 bits, the sum to the field in 64 bits. */
    function Adjusted(field: nat): nat
      requires Valid()
    {
      Wrapped(field + Wrapped(adjust + End(), TWO_32), TWO_64)
    }

    function Field(s: seq<byte>): nat
      requires |s| >= End()
    {
      FromDigits(big, s[offset..End()])
    }
  }

  lemma AdjustedWraps(cfg: Config, field: nat)
    requires cfg.Valid() && field < TWO_64
    ensures cfg.Adjusted(field) == (field + (cfg.adjust + cfg.End()) % TWO_32) % TWO_64
  {
  }

  /** What one turn of the loop does with the bytes `s`. */
  datatype Step = Wait | TooLong | Discard(n: nat) | Frame(n: nat)

  function Look(cfg: Config, s: seq<byte>): Step
    requires cfg.Valid()
  {
    if |s| <= cfg.End() then Wait
    else
      var n := cfg.Adjusted(cfg.Field(s));
      if n < cfg.End() then Discard(cfg.End())
      else if n > cfg.max then TooLong
      else if |s| < n then Wait
      else if cfg.strip > n then Discard(n)
      else Frame(n)
  }

  /** The frames fired and the bytes left. */
  datatype Outcome = Outcome(frames: seq<seq<byte>>, rest: seq<byte>)

  function Prepend(frames: seq<seq<byte>>, o: Outcome): Outcome {
    Outcome(frames + o.frames, o.rest)
  }

  lemma StepFits(cfg: Config, s: seq<byte>)
    requires cfg.Valid()
    ensures Look(cfg, s).Frame? ==> cfg.strip <= Look(cfg, s).n && cfg.End() <= Look(cfg, s).n <= |s|
    ensures Look(cfg, s).Discard? ==> 0 < Look(cfg, s).n <= |s|
  {
  }

  /** One call of `decode`. */
  function Decoded(cfg: Config, s: seq<byte>): (o: Outcome)
    requires cfg.Valid()
    decreases |s|
  {
    StepFits(cfg, s);
    match Look(cfg, s)
    case Wait => Outcome([], s)
    case TooLong => Outcome([], s)
    case Discard(n) => Outcome([], s[n..])
    case Frame(n) => Prepend([s[cfg.strip..n]], Decoded(cfg, s[n..]))
  }

  /** Whether the call ends in one of the two arms that discard bytes and return. */
  predicate Discards(cfg: Config, s: seq<byte>)
    requires cfg.Valid()
    decreases |s|
  {
    StepFits(cfg, s);
    match Look(cfg, s)
    case Discard(_) => true
    case Frame(n) => Discards(cfg, s[n..])
    case _ => false
  }

  /** Whether a call would do anything. */
  predicate Moves(cfg: Config, s: seq<byte>)
    requires cfg.Valid()
  {
    Look(cfg, s).Discard? || Look(cfg, s).Frame?
  }

  lemma MovesExactly(cfg: Config, s: seq<byte>)
    requires cfg.Valid()
    ensures Moves(cfg, s) <==> Decoded(cfg, s) != Outcome([], s)
  {
    StepFits(cfg, s);
  }

  /** What becomes of bytes that begin with a whole length field and a byte more, by the length that the
      field's value makes with the adjustment: below the end offset, just the bytes up to there are
      dropped and the call returns; above the maximum, nothing is taken, whatever follows; until all of
      it is there, the bytes wait; a frame shorter than the strip is dropped whole, and the call returns;
      and any other is fired without its first bytes, and what follows is decoded. */
  lemma ByLength(cfg: Config, header: seq<byte>, field: nat, more: seq<byte>)
    requires cfg.Valid() && |header| == cfg.offset && field < Limit(cfg.width) && more != []
    ensures var s := header + Digits(cfg.big, field, cfg.width) + more;
            var n := (field + (cfg.adjust + cfg.offset + cfg.width) % TWO_32) % TWO_64;
            Decoded(cfg, s) ==
              if n < cfg.offset + cfg.width then Outcome([], more)
              else if n > cfg.max || |s| < n then Outcome([], s)
              else if cfg.strip > n then Outcome([], s[n..])
              else Prepend([s[cfg.strip..n]], Decoded(cfg, s[n..]))
  {
    var s := header + Digits(cfg.big, field, cfg.width) + more;
    Between(header, Digits(cfg.big, field, cfg.width), more);
    DigitsRoundTrip(cfg.big, field, cfg.width);
    FieldFits(cfg.width, field);
    AdjustedWraps(cfg, field);
    var n := cfg.Adjusted(field);
    assert Look(cfg, s) == if n < cfg.End() then Discard(cfg.End()) else if n > cfg.max then TooLong
                           else if |s| < n then Wait else if cfg.strip > n then Discard(n) else Frame(n);
  }

  lemma FieldFits(width: nat, field: nat)
    requires (width == 1 || width == 2 || width == 4 || width == 8) && field < Limit(width)
    ensures field < TWO_64
  {
    Limits();
  }

  /** Up to its length field nothing is decided. */
  lemma TooShort(cfg: Config, s: seq<byte>)
    requires cfg.Valid() && |s| <= cfg.offset + cfg.width
    ensures Decoded(cfg, s) == Outcome([], s)
  {
  }

  /** Every longer stream is of that form. */
  lemma Begins(cfg: Config, s: seq<byte>)
    requires cfg.Valid() && |s| > cfg.offset + cfg.width
    ensures var field := FromDigits(cfg.big, s[cfg.offset..cfg.End()]);
            && field < Limit(cfg.width)
            && s == s[..cfg.offset] + Digits(cfg.big, field, cfg.width) + s[cfg.End()..]
  {
    DigitsOfBytes(cfg.big, s[cfg.offset..cfg.End()]);
    InThree(s, cfg.offset, cfg.End());
  }

  lemma Between(a: seq<byte>, b: seq<byte>, c: seq<byte>)
    ensures var s := a + b + c; s[|a|..|a| + |b|] == b && s[|a| + |b|..] == c
  {
  }

  lemma InThree(s: seq<byte>, i: nat, j: nat)
    requires i <= j <= |s|
    ensures s == s[..i] + s[i..j] + s[j..]
  {
  }

  /** More bytes change a decision only if it was to wait. */
  lemma StepKept(cfg: Config, a: seq<byte>, b: seq<byte>)
    requires cfg.Valid() && !Look(cfg, a).Wait?
    ensures Look(cfg, a + b) == Look(cfg, a)
  {
    assert (a + b)[cfg.offset..cfg.End()] == a[cfg.offset..cfg.End()];
  }

  /** Decoding after each of two chunks gives what decoding both at once gives, exactly unless the
      first call returns from a discard arm and what it left, with the second chunk, is not stuck. */
  lemma {:induction false} SplitExactly(cfg: Config, a: seq<byte>, b: seq<byte>)
    requires cfg.Valid()
    ensures var o := Decoded(cfg, a);
            Prepend(o.frames, Decoded(cfg, o.rest + b)) == Decoded(cfg, a + b)
            <==> !(Discards(cfg, a) && Moves(cfg, o.rest + b))
    decreases |a|
  {
    StepFits(cfg, a);
    match Look(cfg, a)
    case Wait => PrependNone(Decoded(cfg, a + b));
    case TooLong => PrependNone(Decoded(cfg, a + b));
    case Discard(n) =>
      StepKept(cfg, a, b);
      assert (a + b)[n..] == a[n..] + b;
      PrependNone(Decoded(cfg, a[n..] + b));
      MovesExactly(cfg, a[n..] + b);
    case Frame(n) =>
      StepKept(cfg, a, b);
      assert (a + b)[n..] == a[n..] + b;
      assert (a + b)[cfg.strip..n] == a[cfg.strip..n];
      SplitExactly(cfg, a[n..], b);
      var first, o := [a[cfg.strip..n]], Decoded(cfg, a[n..]);
      PrependTwice(first, o.frames, Decoded(cfg, o.rest + b));
      PrependInjective(first, Prepend(o.frames, Decoded(cfg, o.rest + b)), Decoded(cfg, a[n..] + b));
  }

  lemma PrependNone(o: Outcome)
    ensures Prepend([], o) == o
  {
  }

  lemma PrependTwice(f: seq<seq<byte>>, g: seq<seq<byte>>, o: Outcome)
    ensures Prepend(f + g, o) == Prepend(f, Prepend(g, o))
  {
    assert (f + g) + o.frames == f + (g + o.frames);
  }

  lemma PrependInjective(f: seq<seq<byte>>, o: Outcome, p: Outcome)
    ensures Prepend(f, o) == Prepend(f, p) <==> o == p
  {
    assert (f + o.frames)[|f|..] == o.frames && (f + p.frames)[|f|..] == p.frames;
  }

  /** The first call that leaves a frame off: what is fired depends on how the stream was cut. */
  lemma SplitExample()
    ensures var cfg := Config(100, 0, 1, -1, 0, true);
            var a: seq<byte>, b: seq<byte> := [0, 2], [7, 2, 9];
            && cfg.Valid() && Decoded(cfg, a + b) == Outcome([], [2, 7, 2, 9])
            && Decoded(cfg, a) == Outcome([], [2]) && Decoded(cfg, [2] + b) == Outcome([[2, 7], [2, 9]], [])
  {
    var cfg := Config(100, 0, 1, -1, 0, true);
    var a: seq<byte>, b: seq<byte> := [0, 2], [7, 2, 9];
    FieldOfOne(cfg, a);
    FieldOfOne(cfg, a + b);
    assert (a + b)[1..] == [2, 7, 2, 9] && a[1..] == [2];
    var c: seq<byte>, d: seq<byte> := [2] + b, [2, 9];
    FieldOfOne(cfg, c);
    FieldOfOne(cfg, d);
    assert c[0..2] == [2, 7] && c[2..] == d && d[0..2] == d && d[2..] == [];
  }

  lemma FieldOfOne(cfg: Config, s: seq<byte>)
    requires cfg.offset == 0 && cfg.width == 1 && |s| >= 1
    ensures cfg.Field(s) == s[0]
  {
    assert s[0..1] == [s[0]] && Reversed([s[0]]) == [s[0]];
    assert FromLittle([s[0]]) == s[0] + 256 * FromLittle([s[0]][1..]);
  }

  function Concat(chunks: seq<seq<byte>>): seq<byte> {
    if chunks == [] then [] else chunks[0] + Concat(chunks[1..])
  }

  /** One call after each chunk, on what the call before left and the chunk. */
  function Stream(cfg: Config, left: seq<byte>, chunks: seq<seq<byte>>): Outcome
    requires cfg.Valid()
    decreases |chunks|
  {
    if chunks == [] then Outcome([], left)
    else
      var o := Decoded(cfg, left + chunks[0]);
      Prepend(o.frames, Stream(cfg, o.rest, chunks[1..]))
  }

  /** No call does anything. */
  predicate Quiet(cfg: Config, left: seq<byte>, chunks: seq<seq<byte>>)
    requires cfg.Valid()
    decreases |chunks|
  {
    chunks != [] ==> !Moves(cfg, left + chunks[0]) && Quiet(cfg, left + chunks[0], chunks[1..])
  }

  /** After the first call that returns from a discard arm, no call does anything. */
  predicate QuietAfterDiscard(cfg: Config, left: seq<byte>, chunks: seq<seq<byte>>)
    requires cfg.Valid()
    decreases |chunks|
  {
    chunks != [] ==>
      var o := Decoded(cfg, left + chunks[0]);
      if Discards(cfg, left + chunks[0]) then Quiet(cfg, o.rest, chunks[1..])
      else QuietAfterDiscard(cfg, o.rest, chunks[1..])
  }

  lemma {:induction false} DecodedShrinks(cfg: Config, s: seq<byte>)
    requires cfg.Valid()
    ensures |Decoded(cfg, s).rest| <= |s| && (Moves(cfg, s) <==> |Decoded(cfg, s).rest| < |s|)
    decreases |s|
  {
    StepFits(cfg, s);
    if Look(cfg, s).Frame? {
      DecodedShrinks(cfg, s[Look(cfg, s).n..]);
    }
  }

  lemma {:induction false} QuietExactly(cfg: Config, left: seq<byte>, chunks: seq<seq<byte>>)
    requires cfg.Valid()
    ensures |Stream(cfg, left, chunks).rest| <= |left + Concat(chunks)|
    ensures Quiet(cfg, left, chunks) <==> Stream(cfg, left, chunks) == Outcome([], left + Concat(chunks))
    ensures !Quiet(cfg, left, chunks) ==> |Stream(cfg, left, chunks).rest| < |left + Concat(chunks)|
    decreases |chunks|
  {
    if chunks == [] {
      assert left + [] == left;
    } else {
      var a := left + chunks[0];
      assert left + Concat(chunks) == a + Concat(chunks[1..]);
      DecodedShrinks(cfg, a);
      MovesExactly(cfg, a);
      QuietExactly(cfg, Decoded(cfg, a).rest, chunks[1..]);
      PrependNone(Stream(cfg, a, chunks[1..]));
    }
  }

  /** However a stream arrives, the calls fire the frames and leave the bytes that one call on all of it
      would, exactly if after the first call that discards no later call does anything. */
  lemma {:induction false} StreamExactly(cfg: Config, left: seq<byte>, chunks: seq<seq<byte>>)
    requires cfg.Valid() && !Moves(cfg, left)
    ensures Stream(cfg, left, chunks) == Decoded(cfg, left + Concat(chunks)) <==> QuietAfterDiscard(cfg, left, chunks)
    decreases |chunks|
  {
    if chunks == [] {
      MovesExactly(cfg, left);
      assert left + [] == left;
    } else {
      var a, b := left + chunks[0], Concat(chunks[1..]);
      var o := Decoded(cfg, a);
      assert left + Concat(chunks) == a + b;
      if Discards(cfg, a) {
        DiscardStops(cfg, a, b);
        QuietExactly(cfg, o.rest, chunks[1..]);
        PrependNone(Outcome([], o.rest + b));
        PrependInjective(o.frames, Stream(cfg, o.rest, chunks[1..]), Outcome([], o.rest + b));
      } else {
        SplitExactly(cfg, a, b);
        Stuck(cfg, a);
        StreamExactly(cfg, o.rest, chunks[1..]);
        PrependInjective(o.frames, Stream(cfg, o.rest, chunks[1..]), Decoded(cfg, o.rest + b));
      }
    }
  }

  /** A call that discards returns with whatever came behind. */
  lemma {:induction false} DiscardStops(cfg: Config, a: seq<byte>, b: seq<byte>)
    requires cfg.Valid() && Discards(cfg, a)
    ensures Decoded(cfg, a + b) == Prepend(Decoded(cfg, a).frames, Outcome([], Decoded(cfg, a).rest + b))
    decreases |a|
  {
    StepFits(cfg, a);
    StepKept(cfg, a, b);
    var n := Look(cfg, a).n;
    assert (a + b)[n..] == a[n..] + b;
    if Look(cfg, a).Frame? {
      assert (a + b)[cfg.strip..n] == a[cfg.strip..n];
      DiscardStops(cfg, a[n..], b);
      PrependTwice([a[cfg.strip..n]], Decoded(cfg, a[n..]).frames, Outcome([], Decoded(cfg, a[n..]).rest + b));
    }
  }

  /** In particular if decoding all of it at once never discards. */
  lemma {:induction false} ChunkIndependence(cfg: Config, left: seq<byte>, chunks: seq<seq<byte>>)
    requires cfg.Valid() && !Moves(cfg, left) && !Discards(cfg, left + Concat(chunks))
    ensures Stream(cfg, left, chunks) == Decoded(cfg, left + Concat(chunks))
    decreases |chunks|
  {
    CleanQuiet(cfg, left, chunks);
    StreamExactly(cfg, left, chunks);
  }

  lemma {:induction false} CleanQuiet(cfg: Config, left: seq<byte>, chunks: seq<seq<byte>>)
    requires cfg.Valid() && !Discards(cfg, left + Concat(chunks))
    ensures QuietAfterDiscard(cfg, left, chunks)
    decreases |chunks|
  {
    if chunks != [] {
      var a, b := left + chunks[0], Concat(chunks[1..]);
      assert left + Concat(chunks) == a + b;
      if Discards(cfg, a) {
        DiscardsKept(cfg, a, b);
      } else {
        DiscardsRest(cfg, a, b);
        CleanQuiet(cfg, Decoded(cfg, a).rest, chunks[1..]);
      }
    }
  }

  lemma {:induction false} DiscardsKept(cfg: Config, a: seq<byte>, b: seq<byte>)
    requires cfg.Valid() && Discards(cfg, a)
    ensures Discards(cfg, a + b)
    decreases |a|
  {
    StepFits(cfg, a);
    StepKept(cfg, a, b);
    if Look(cfg, a).Frame? {
      var n := Look(cfg, a).n;
      assert (a + b)[n..] == a[n..] + b;
      DiscardsKept(cfg, a[n..], b);
    }
  }

  lemma {:induction false} DiscardsRest(cfg: Config, a: seq<byte>, b: seq<byte>)
    requires cfg.Valid() && !Discards(cfg, a)
    ensures Discards(cfg, a + b) <==> Discards(cfg, Decoded(cfg, a).rest + b)
    decreases |a|
  {
    StepFits(cfg, a);
    if Look(cfg, a).Frame? {
      var n := Look(cfg, a).n;
      StepKept(cfg, a, b);
      assert (a + b)[n..] == a[n..] + b;
      DiscardsRest(cfg, a[n..], b);
    }
  }

  /** A call that does not discard leaves nothing it could act on. */
  lemma {:induction false} Stuck(cfg: Config, s: seq<byte>)
    requires cfg.Valid() && !Discards(cfg, s)
    ensures !Moves(cfg, Decoded(cfg, s).rest)
    decreases |s|
  {
    StepFits(cfg, s);
    if Look(cfg, s).Frame? {
      Stuck(cfg, s[Look(cfg, s).n..]);
    }
  }

  /** Configurations that discard nothing, whatever arrives. */
  predicate NeverDiscards(cfg: Config) {
    && cfg.width != 8 && cfg.adjust >= 0 && cfg.adjust + cfg.End() < TWO_32
    && (cfg.strip <= cfg.adjust + cfg.End() || cfg.adjust + cfg.End() > cfg.max)
  }

  lemma Limits()
    ensures Limit(1) == 0x100 && Limit(2) == 0x1_0000 && Limit(4) == TWO_32 && Limit(8) == TWO_64
  {
    assert Limit(2) == 256 * Limit(1) && Limit(3) == 256 * Limit(2) && Limit(4) == 256 * Limit(3);
    assert Limit(5) == 256 * Limit(4) && Limit(6) == 256 * Limit(5) && Limit(7) == 256 * Limit(6);
  }

  lemma {:induction false} DiscardsNothing(cfg: Config, s: seq<byte>)
    requires cfg.Valid() && NeverDiscards(cfg)
    ensures !Discards(cfg, s)
    decreases |s|
  {
    StepFits(cfg, s);
    if |s| > cfg.End() {
      Limits();
      DigitsOfBytes(cfg.big, s[cfg.offset..cfg.End()]);
      assert cfg.Adjusted(cfg.Field(s)) == cfg.Field(s) + cfg.adjust + cfg.End();
    }
    if Look(cfg, s).Frame? {
      DiscardsNothing(cfg, s[Look(cfg, s).n..]);
    }
  }

  function Zeros(n: nat): (z: seq<byte>)
    ensures |z| == n
  {
    seq(n, _ => 0)
  }

  /** A field value at which any other configuration discards. */
  function BadField(cfg: Config): nat
    requires cfg.Valid()
  {
    if cfg.width == 8 && 0 < cfg.adjust + cfg.End() < TWO_32 && cfg.adjust >= 0 then TWO_64 - (cfg.adjust + cfg.End()) else 0
  }

  /** A stream that any other configuration discards: what it leaves of one, it takes for the beginning
      of the next. */
  function BadStream(cfg: Config): (s: seq<byte>)
    requires cfg.Valid()
    ensures |s| > cfg.End()
  {
    var core := Zeros(cfg.offset) + Digits(cfg.big, BadField(cfg), cfg.width);
    var n := cfg.Adjusted(BadField(cfg));
    core + if n > cfg.End() then Zeros(n - cfg.End()) else [core[0]]
  }

  lemma BadLook(cfg: Config)
    requires cfg.Valid() && !NeverDiscards(cfg)
    ensures Look(cfg, BadStream(cfg)).Discard?
    ensures var s := BadStream(cfg); var n := Look(cfg, s).n;
            n > 0 && n <= |s| && s[n..] == s[..|s| - n]
  {
    Limits();
    var s, field := BadStream(cfg), BadField(cfg);
    assert s[cfg.offset..cfg.End()] == Digits(cfg.big, field, cfg.width);
    DigitsRoundTrip(cfg.big, field, cfg.width);
  }

  /** A configuration never discards, whatever arrives, exactly if it is one of these. */
  lemma NoDiscard(cfg: Config)
    requires cfg.Valid()
    ensures NeverDiscards(cfg) <==> forall s: seq<byte> :: !Discards(cfg, s)
  {
    if NeverDiscards(cfg) {
      forall s: seq<byte>
        ensures !Discards(cfg, s)
      {
        DiscardsNothing(cfg, s);
      }
    } else {
      BadLook(cfg);
      assert exists s: seq<byte> :: Discards(cfg, s) by {
        assert Discards(cfg, BadStream(cfg));
      }
    }
  }

  /** And these are the configurations with which it never matters how a stream is cut. */
  lemma AlwaysAgrees(cfg: Config)
    requires cfg.Valid()
    ensures NeverDiscards(cfg) <==> forall chunks: seq<seq<byte>> :: Stream(cfg, [], chunks) == Decoded(cfg, Concat(chunks))
  {
    if NeverDiscards(cfg) {
      forall chunks: seq<seq<byte>>
        ensures Stream(cfg, [], chunks) == Decoded(cfg, Concat(chunks))
      {
        DiscardsNothing(cfg, [] + Concat(chunks));
        ChunkIndependence(cfg, [], chunks);
        assert [] + Concat(chunks) == Concat(chunks);
      }
    } else {
      BadLook(cfg);
      var s := BadStream(cfg);
      var n := Look(cfg, s).n;
      var b := s[|s| - n..];
      assert s[n..] + b == s;
      SplitExactly(cfg, s, b);
      TwoChunks(cfg, s, b);
    }
  }

  lemma TwoChunks(cfg: Config, a: seq<byte>, b: seq<byte>)
    requires cfg.Valid()
    ensures Stream(cfg, [], [a, b]) == Prepend(Decoded(cfg, a).frames, Decoded(cfg, Decoded(cfg, a).rest + b))
    ensures Concat([a, b]) == a + b
  {
    var rest := Decoded(cfg, a).rest;
    assert [] + a == a && [a, b][1..] == [b] && [b][1..] == [];
    assert Concat([b]) == b + [] == b;
    var o := Decoded(cfg, rest + b);
    assert Stream(cfg, o.rest, []) == Outcome([], o.rest);
    assert Stream(cfg, rest, [b]) == Prepend(o.frames, Outcome([], o.rest)) == o;
  }

  /** A frame to send: the bytes before the length field, its value, and the bytes after it. */
  datatype Packet = Packet(header: seq<byte>, field: nat, tail: seq<byte>)

  /** The field says the frame's length, and the decoder accepts the frame. */
  predicate Encodable(cfg: Config, p: Packet)
    requires cfg.Valid()
  {
    && |p.header| == cfg.offset && p.field < Limit(cfg.width)
    && cfg.Adjusted(p.field) == cfg.End() + |p.tail| && cfg.strip <= cfg.End() + |p.tail| <= cfg.max
  }

  /** What a sender writes into the field is what the adjustment leaves of the bytes behind it. Where the
      adjustment is more than these, only an eight-byte field can say the length, by wrapping round. */
  lemma FieldExactly(cfg: Config, field: nat, tail: nat)
    requires cfg.Valid() && cfg.adjust + cfg.End() < TWO_32 && cfg.End() + tail < TWO_32 && field < Limit(cfg.width)
    ensures cfg.Adjusted(field) == cfg.End() + tail <==>
              field == tail - cfg.adjust || (cfg.width == 8 && field == tail - cfg.adjust + TWO_64)
  {
    Limits();
  }

  function Encode(cfg: Config, p: Packet): (f: seq<byte>)
    requires cfg.Valid() && Encodable(cfg, p)
    ensures |f| == cfg.End() + |p.tail|
  {
    p.header + Digits(cfg.big, p.field, cfg.width) + p.tail
  }

  function EncodeAll(cfg: Config, ps: seq<Packet>): seq<byte>
    requires cfg.Valid() && forall p :: p in ps ==> Encodable(cfg, p)
  {
    if ps == [] then [] else Encode(cfg, ps[0]) + EncodeAll(cfg, ps[1..])
  }

  /** The frames without their first bytes. */
  function Stripped(cfg: Config, ps: seq<Packet>): (frames: seq<seq<byte>>)
    requires cfg.Valid() && forall p :: p in ps ==> Encodable(cfg, p)
    ensures |frames| == |ps|
  {
    if ps == [] then [] else [Encode(cfg, ps[0])[cfg.strip..]] + Stripped(cfg, ps[1..])
  }

  /** A packet in front is decoded as soon as one byte follows its length field. */
  lemma EncodeLook(cfg: Config, p: Packet, rest: seq<byte>)
    requires cfg.Valid() && Encodable(cfg, p)
    ensures Look(cfg, Encode(cfg, p) + rest) == if p.tail + rest == [] then Wait else Frame(|Encode(cfg, p)|)
  {
    var s := Encode(cfg, p) + rest;
    assert s[cfg.offset..cfg.End()] == Digits(cfg.big, p.field, cfg.width);
    DigitsRoundTrip(cfg.big, p.field, cfg.width);
  }

  /** Whether a byte follows the length field of the last packet. */
  predicate LastReady(ps: seq<Packet>, rest: seq<byte>) {
    ps != [] && rest == [] ==> ps[|ps| - 1].tail != []
  }

  /** What was encoded is decoded: all packets in order, and then what decoding the bytes behind them
      gives, exactly if a byte follows the last length field; the comparison with the end offset lets
      a packet that ends there wait. */
  lemma {:induction false} RoundTrip(cfg: Config, ps: seq<Packet>, rest: seq<byte>)
    requires cfg.Valid() && forall p :: p in ps ==> Encodable(cfg, p)
    ensures Decoded(cfg, EncodeAll(cfg, ps) + rest) == Prepend(Stripped(cfg, ps), Decoded(cfg, rest))
            <==> LastReady(ps, rest)
    decreases |ps|
  {
    if ps == [] {
      assert [] + rest == rest;
      PrependNone(Decoded(cfg, rest));
    } else {
      var f, more := Encode(cfg, ps[0]), EncodeAll(cfg, ps[1..]) + rest;
      assert EncodeAll(cfg, ps) + rest == f + more;
      EncodeLook(cfg, ps[0], more);
      RoundTrip(cfg, ps[1..], rest);
      if ps[0].tail + more == [] {
        EncodeSome(cfg, ps[1..]);
        assert |Prepend(Stripped(cfg, ps), Decoded(cfg, rest)).frames| > 0;
      } else {
        assert (f + more)[|f|..] == more && (f + more)[cfg.strip..|f|] == f[cfg.strip..];
        EncodeSome(cfg, ps[1..]);
        PrependTwice([f[cfg.strip..]], Stripped(cfg, ps[1..]), Decoded(cfg, rest));
        PrependInjective([f[cfg.strip..]], Decoded(cfg, more), Prepend(Stripped(cfg, ps[1..]), Decoded(cfg, rest)));
      }
    }
  }

  lemma EncodeSome(cfg: Config, ps: seq<Packet>)
    requires cfg.Valid() && forall p :: p in ps ==> Encodable(cfg, p)
    ensures EncodeAll(cfg, ps) == [] <==> ps == []
  {
  }

  /** The whole stream, encoded, sent in any chunks and decoded as it arrives. */
  lemma StreamRoundTrip(cfg: Config, ps: seq<Packet>, chunks: seq<seq<byte>>)
    requires cfg.Valid() && (forall p :: p in ps ==> Encodable(cfg, p)) && Concat(chunks) == EncodeAll(cfg, ps)
    ensures Stream(cfg, [], chunks) == Outcome(Stripped(cfg, ps), []) <==> LastReady(ps, [])
  {
    RoundTrip(cfg, ps, []);
    assert Prepend(Stripped(cfg, ps), Decoded(cfg, [])) == Outcome(Stripped(cfg, ps), []);
    assert EncodeAll(cfg, ps) + [] == EncodeAll(cfg, ps) == [] + Concat(chunks);
    EncodeClean(cfg, ps);
    ChunkIndependence(cfg, [], chunks);
  }

  lemma {:induction false} EncodeClean(cfg: Config, ps: seq<Packet>)
    requires cfg.Valid() && forall p :: p in ps ==> Encodable(cfg, p)
    ensures !Discards(cfg, EncodeAll(cfg, ps))
    decreases |ps|
  {
    if ps != [] {
      var f, more := Encode(cfg, ps[0]), EncodeAll(cfg, ps[1..]);
      EncodeLook(cfg, ps[0], more);
      EncodeClean(cfg, ps[1..]);
      assert (f + more)[|f|..] == more;
    }
  }

  /** The packet that the first bytes are. */
  function Parsed(cfg: Config, s: seq<byte>, n: nat): Packet
    requires cfg.Valid() && cfg.End() <= n <= |s|
  {
    Packet(s[..cfg.offset], cfg.Field(s), s[cfg.End()..n])
  }

  function Packets(cfg: Config, s: seq<byte>): seq<Packet>
    requires cfg.Valid()
    decreases |s|
  {
    StepFits(cfg, s);
    match Look(cfg, s)
    case Frame(n) => [Parsed(cfg, s, n)] + Packets(cfg, s[n..])
    case _ => []
  }

  /** Nothing is made up: what is fired is what some encodable packets encode to, stripped, and they,
      with what is left, are the bytes that came in. */
  lemma {:induction false} Reassembly(cfg: Config, s: seq<byte>)
    requires cfg.Valid() && !Discards(cfg, s)
    ensures forall p :: p in Packets(cfg, s) ==> Encodable(cfg, p)
    ensures EncodeAll(cfg, Packets(cfg, s)) + Decoded(cfg, s).rest == s
    ensures Decoded(cfg, s).frames == Stripped(cfg, Packets(cfg, s))
    decreases |s|
  {
    StepFits(cfg, s);
    if Look(cfg, s).Frame? {
      var n := Look(cfg, s).n;
      var rest := s[n..];
      Reassembly(cfg, rest);
      ParsedEncode(cfg, s, n);
      PacketsNext(cfg, Parsed(cfg, s, n), Packets(cfg, rest), s[..n], Decoded(cfg, rest).rest);
      Slices(s, cfg.strip, n);
    } else {
      assert [] + s == s;
    }
  }

  lemma Slices(s: seq<byte>, lo: nat, hi: nat)
    requires lo <= hi <= |s|
    ensures s[..hi] + s[hi..] == s && s[..hi][lo..] == s[lo..hi]
  {
  }

  lemma PacketsNext(cfg: Config, p: Packet, ps: seq<Packet>, f: seq<byte>, rest: seq<byte>)
    requires cfg.Valid() && Encodable(cfg, p) && (forall q :: q in ps ==> Encodable(cfg, q)) && f == Encode(cfg, p)
    requires cfg.strip <= |f|
    ensures forall q :: q in [p] + ps ==> Encodable(cfg, q)
    ensures EncodeAll(cfg, [p] + ps) + rest == f + (EncodeAll(cfg, ps) + rest)
    ensures Stripped(cfg, [p] + ps) == [f[cfg.strip..]] + Stripped(cfg, ps)
  {
    assert ([p] + ps)[1..] == ps;
    assert (f + EncodeAll(cfg, ps)) + rest == f + (EncodeAll(cfg, ps) + rest);
  }

  lemma ParsedEncode(cfg: Config, s: seq<byte>, n: nat)
    requires cfg.Valid() && Look(cfg, s) == Frame(n) && cfg.End() <= n <= |s|
    ensures Encodable(cfg, Parsed(cfg, s, n)) && Encode(cfg, Parsed(cfg, s, n)) == s[..n]
  {
    var field := s[cfg.offset..cfg.End()];
    DigitsOfBytes(cfg.big, field);
    assert s[..n] == s[..cfg.offset] + field + s[cfg.End()..n];
  }

  /* The configurations of the header comment, for every content that they can carry. */

  lemma WholeFrame(max: nat, content: seq<byte>)
    requires 0 < |content| < 0x1_0000 && 2 + |content| <= max < TWO_32
    ensures var wire := [|content| / 256, |content| % 256] + content;
            Decoded(Config(max, 0, 2, 0, 0, true), wire) == Outcome([wire], [])
  {
    var wire := [|content| / 256, |content| % 256] + content;
    OnePacket(Config(max, 0, 2, 0, 0, true), [], content, |content|, wire, wire);
  }

  lemma LengthStripped(max: nat, content: seq<byte>)
    requires 0 < |content| < 0x1_0000 && 2 + |content| <= max < TWO_32
    ensures var wire := [|content| / 256, |content| % 256] + content;
            Decoded(Config(max, 0, 2, 0, 2, true), wire) == Outcome([content], [])
  {
    OnePacket(Config(max, 0, 2, 0, 2, true), [], content, |content|, [|content| / 256, |content| % 256] + content, content);
  }

  lemma LengthOfAll(max: nat, content: seq<byte>)
    requires 0 < |content| < 0x1_0000 - 2 && 2 + |content| <= max < TWO_32
    ensures var wire := [(|content| + 2) / 256, (|content| + 2) % 256] + content;
            Decoded(Config(max, 0, 2, -2, 0, true), wire) == Outcome([wire], [])
  {
    var wire := [(|content| + 2) / 256, (|content| + 2) % 256] + content;
    OnePacket(Config(max, 0, 2, -2, 0, true), [], content, |content| + 2, wire, wire);
  }

  lemma HeaderBefore(max: nat, header: seq<byte>, content: seq<byte>)
    requires |header| == 2 && 0 < |content| < 0x1_0000 && 4 + |content| <= max < TWO_32
    ensures var wire := header + [|content| / 256, |content| % 256] + content;
            Decoded(Config(max, 2, 2, 0, 0, true), wire) == Outcome([wire], [])
  {
    var wire := header + [|content| / 256, |content| % 256] + content;
    OnePacket(Config(max, 2, 2, 0, 0, true), header, content, |content|, wire, wire);
  }

  lemma EmptyFront(a: seq<byte>, b: seq<byte>)
    ensures [] + a + b == a + b
  {
  }

  lemma HeaderBehind(max: nat, header: seq<byte>, content: seq<byte>)
    requires |header| == 2 && |content| < 0x1_0000 && 4 + |content| <= max < TWO_32
    ensures var wire := [|content| / 256, |content| % 256] + (header + content);
            Decoded(Config(max, 0, 2, 2, 0, true), wire) == Outcome([wire], [])
  {
    var wire := [|content| / 256, |content| % 256] + (header + content);
    EmptyFront([|content| / 256, |content| % 256], header + content);
    OnePacket(Config(max, 0, 2, 2, 0, true), [], header + content, |content|, wire, wire);
  }

  lemma HeadersAround(max: nat, first: byte, second: byte, content: seq<byte>)
    requires |content| < 0x1_0000 && 4 + |content| <= max < TWO_32
    ensures var wire := [first] + [|content| / 256, |content| % 256] + ([second] + content);
            Decoded(Config(max, 1, 2, 1, 3, true), wire) == Outcome([[second] + content], [])
  {
    var wire, frame := [first] + [|content| / 256, |content| % 256] + ([second] + content), [second] + content;
    OnePacket(Config(max, 1, 2, 1, 3, true), [first], frame, |content|, wire, frame);
  }

  lemma HeadersCounted(max: nat, first: byte, second: byte, content: seq<byte>)
    requires |content| < 0x1_0000 - 4 && 4 + |content| <= max < TWO_32
    ensures var wire := [first] + [(|content| + 4) / 256, (|content| + 4) % 256] + ([second] + content);
            Decoded(Config(max, 1, 2, -3, 3, true), wire) == Outcome([[second] + content], [])
  {
    var wire, frame := [first] + [(|content| + 4) / 256, (|content| + 4) % 256] + ([second] + content), [second] + content;
    OnePacket(Config(max, 1, 2, -3, 3, true), [first], frame, |content| + 4, wire, frame);
  }

  lemma TwoDigits(field: nat)
    requires field < 0x1_0000
    ensures Digits(true, field, 2) == [field / 256, field % 256]
  {
    DigitAt(field, 2, 0);
    DigitAt(field, 2, 1);
    assert Limit(1) == 256 * Limit(0);
  }

  lemma OnePacket(cfg: Config, header: seq<byte>, tail: seq<byte>, field: nat, wire: seq<byte>, frame: seq<byte>)
    requires cfg.Valid() && cfg.big && cfg.width == 2 && |tail| - cfg.adjust == field < 0x1_0000 && tail != []
    requires |header| == cfg.offset && cfg.strip <= |wire| <= cfg.max
    requires wire == header + [field / 256, field % 256] + tail && frame == wire[cfg.strip..]
    ensures Decoded(cfg, wire) == Outcome([frame], [])
  {
    Limits();
    TwoDigits(field);
    FieldExactly(cfg, field, |tail|);
    EncodeLook(cfg, Packet(header, field, tail), []);
    assert wire + [] == wire && wire[|wire|..] == [] && wire[cfg.strip..|wire|] == frame;
    assert Decoded(cfg, []) == Outcome([], []);
    assert Prepend([frame], Outcome([], [])) == Outcome([frame], []);
  }
}
