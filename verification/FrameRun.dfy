/** A session with the length-field decoder as its first handler: frames as the bytes arrive. */
module FrameRuns {
  import opened Endian
  import opened Views
  import opened LengthField
  import opened LengthFieldDecoders
  import opened Sessions

  class FrameRun {
    const session: Session
    const decoder: LengthFieldBaseFrameDecoder

    /** All frames fired so far; what each call of the decoder found that was new; what has arrived
        since the last one. */
    ghost var fired: seq<seq<byte>>
    ghost var cuts: seq<seq<byte>>
    ghost var waiting: seq<byte>

    /** The frames and what the calls left are those of the stream, cut where the calls came; bytes that
        wait have a call posted. */
    ghost predicate Valid()
      reads this, session, session.readBuffer, session.readBuffer.blocks,
            session.writeBuffer, session.writeBuffer.blocks
    {
      && session.Valid() && decoder.Valid()
      && session.arrived == Concat(cuts) + waiting
      && fired == Stream(decoder.config, [], cuts).frames
      && session.readBuffer.contents == Stream(decoder.config, [], cuts).rest + waiting
      && (waiting != [] ==> session.workReadCount > 0)
    }

    constructor (mask: nat, config: Config, little: bool)
      requires config.Valid()
      ensures Valid() && session.reading && decoder.config == config && session.readHighWaterMask == mask
      ensures fresh(session) && fresh(session.readBuffer) && fresh(session.readBuffer.Repr)
      ensures fresh(session.writeBuffer) && fresh(session.writeBuffer.Repr)
    {
      session := new Session(mask);
      decoder := new LengthFieldBaseFrameDecoder(config, little);
      fired, cuts, waiting := [], [], [];
    }

    /** Bytes arrive, and a call of the pipeline is posted. */
    method HandleRead(data: seq<byte>)
      requires Valid() && session.readsInFlight > 0
      requires |data| <= Lengths(session.incoming, |session.incoming|) && session.readBuffer.Measure().Fits(|data|)
      modifies this`waiting, session, session.readBuffer, session.readBuffer.Repr
      ensures Valid() && session.arrived == old(session.arrived) + data && cuts == old(cuts) && fired == old(fired)
    {
      session.HandleRead(data);
      Behind(Concat(cuts), waiting, data);
      Behind(Stream(decoder.config, [], cuts).rest, waiting, data);
      waiting := waiting + data;
    }

    /** A posted call runs: the decoder takes what it can, and the callback of the buffer may start the
        next read. */
    method FireRead() returns (frames: seq<seq<byte>>)
      requires Valid() && session.workReadCount > 0
      modifies this, session, session.readBuffer
      ensures Valid() && fired == old(fired) + frames && waiting == []
      ensures cuts == old(cuts) + [old(waiting)] && session.arrived == old(session.arrived)
      ensures session.workReadCount == old(session.workReadCount) - 1
    {
      frames := RunDecoder();
      StreamNext(decoder.config, [], cuts, waiting);
      ghost var rest := session.readBuffer.contents;
      assert rest + [] == rest && session.arrived + [] == session.arrived;
      fired, cuts, waiting := fired + frames, cuts + [waiting], [];
    }

    method RunDecoder() returns (frames: seq<seq<byte>>)
      requires session.Valid() && decoder.Valid() && session.workReadCount > 0
      modifies session, session.readBuffer
      ensures session.Valid() && session.workReadCount == old(session.workReadCount) - 1
      ensures Outcome(frames, session.readBuffer.contents) == Decoded(decoder.config, old(session.readBuffer.contents))
      ensures session.arrived == old(session.arrived)
    {
      ghost var s := session.readBuffer.contents;
      var notified;
      frames, notified := decoder.Decode(session.readBuffer);
      RestBehind(decoder.config, s);
      session.Resume(notified, s[..|s| - |session.readBuffer.contents|]);
      session.FinishRead();
    }

    /** The writing side leaves all that alone. */
    method Write(data: seq<byte>)
      requires Valid() && session.writeBuffer.Measure().Fits(|data|)
      modifies session`pendingWriteLen, session`postedWrites, session`appended
      modifies session.writeBuffer, session.writeBuffer.Repr
      ensures Valid() && session.appended == old(session.appended) + data && session.sent == old(session.sent)
    {
      session.Write(data);
    }

    method RunWrite()
      requires Valid() && session.postedWrites > 0
      modifies session`writing, session`handleCount, session`outgoing, session`writesInFlight, session`postedWrites
      ensures Valid() && session.sent == old(session.sent) && session.postedWrites == old(session.postedWrites) - 1
      ensures session.pendingWriteLen > 0 ==> session.writing
    {
      session.RunWrite();
    }

    method HandleWrite(n: nat) returns (bytes: seq<byte>)
      requires Valid() && session.writesInFlight > 0 && n <= Lengths(session.outgoing, |session.outgoing|)
      modifies session`writing, session`handleCount, session`outgoing, session`writesInFlight
      modifies session`pendingWriteLen, session`sent
      modifies session.writeBuffer`read, session.writeBuffer`readable
      modifies session.writeBuffer`notify, session.writeBuffer`contents
      ensures Valid() && |bytes| == n && session.sent == old(session.sent) + bytes
    {
      bytes := session.HandleWrite(n);
    }

    /** When no posted call is left, the frames fired and the bytes left are those of one call on all that
        has arrived, exactly if after the first call that discarded no later one did anything; and
        always if the configuration never discards. */
    lemma AllDecoded()
      requires Valid() && session.workReadCount == 0
      ensures Outcome(fired, session.readBuffer.contents) == Decoded(decoder.config, session.arrived)
              <==> QuietAfterDiscard(decoder.config, [], cuts)
      ensures NeverDiscards(decoder.config) ==> QuietAfterDiscard(decoder.config, [], cuts)
    {
      assert [] + Concat(cuts) == Concat(cuts) == session.arrived;
      StreamExactly(decoder.config, [], cuts);
      if NeverDiscards(decoder.config) {
        AlwaysAgrees(decoder.config);
      }
    }

    /** The packets that a peer has sent are then fired in order, without their first bytes, exactly if
        a byte follows the last length field. */
    lemma PacketsFired(ps: seq<Packet>)
      requires Valid() && session.workReadCount == 0
      requires (forall p :: p in ps ==> Encodable(decoder.config, p)) && session.arrived == EncodeAll(decoder.config, ps)
      ensures fired == Stripped(decoder.config, ps) && session.readBuffer.contents == [] <==> LastReady(ps, [])
    {
      assert Concat(cuts) == EncodeAll(decoder.config, ps);
      StreamRoundTrip(decoder.config, ps, cuts);
    }

    /** The session goes on reading exactly if the bytes that the decoder has left are below the mark;
        otherwise nothing is left that could start a read. With a configuration that never discards, and
        a mark that no frame in the making can reach, only a frame that is too long stops it. */
    lemma KeepsReading()
      requires Valid() && session.workReadCount == 0
      ensures session.reading <==> session.readHighWaterMask == 0 || |session.readBuffer.contents| < session.readHighWaterMask
      ensures NeverDiscards(decoder.config) && MarkSuffices(decoder.config, session.readHighWaterMask) ==>
                session.reading || Look(decoder.config, session.readBuffer.contents).TooLong?
    {
      var cfg := decoder.config;
      if NeverDiscards(cfg) {
        AllDecoded();
        DiscardsNothing(cfg, session.arrived);
        Stuck(cfg, session.arrived);
      }
    }
  }

  lemma Behind(a: seq<byte>, b: seq<byte>, c: seq<byte>)
    ensures (a + b) + c == a + (b + c)
  {
  }

  lemma BehindBoth(s: seq<byte>, n: nat, rest: seq<byte>)
    requires n <= |s| && |rest| <= |s| - n && s[n..][..|s| - n - |rest|] + rest == s[n..]
    ensures s[..|s| - |rest|] + rest == s
  {
    assert s == s[..n] + s[n..];
    assert s[..|s| - |rest|] == s[..n] + s[n..][..|s| - n - |rest|];
  }

  /** What a call leaves is what it has not taken from the front. */
  lemma {:induction false} RestBehind(cfg: Config, s: seq<byte>)
    requires cfg.Valid()
    ensures var rest := Decoded(cfg, s).rest; |rest| <= |s| && s[..|s| - |rest|] + rest == s
    decreases |s|
  {
    StepFits(cfg, s);
    var step := Look(cfg, s);
    if step.Frame? {
      RestBehind(cfg, s[step.n..]);
      BehindBoth(s, step.n, Decoded(cfg, s[step.n..]).rest);
    }
  }

  lemma {:induction false} StreamNext(cfg: Config, left: seq<byte>, chunks: seq<seq<byte>>, chunk: seq<byte>)
    requires cfg.Valid()
    ensures var o := Stream(cfg, left, chunks);
            Stream(cfg, left, chunks + [chunk]) == Prepend(o.frames, Decoded(cfg, o.rest + chunk))
    ensures Concat(chunks + [chunk]) == Concat(chunks) + chunk
    decreases |chunks|
  {
    if chunks == [] {
      assert [chunk][1..] == [] && [] + [chunk] == [chunk] && chunk + [] == chunk;
      var o := Decoded(cfg, left + chunk);
      assert Stream(cfg, left, [chunk]) == Prepend(o.frames, Outcome([], o.rest)) == o;
      PrependNone(o);
    } else {
      assert (chunks + [chunk])[1..] == chunks[1..] + [chunk];
      var o := Decoded(cfg, left + chunks[0]);
      StreamNext(cfg, o.rest, chunks[1..], chunk);
      var p := Stream(cfg, o.rest, chunks[1..]);
      PrependTwice(o.frames, p.frames, Decoded(cfg, p.rest + chunk));
    }
  }

  /** A mark that bytes waiting for the rest of their frame never reach. */
  predicate MarkSuffices(cfg: Config, mark: nat) {
    mark == 0 || (mark > cfg.End() && mark >= cfg.max)
  }

  /** And no lower mark, if some frame can be as long as the maximum. */
  lemma MarkExactly(cfg: Config, mark: nat, longest: Packet)
    requires cfg.Valid() && mark > 0 && Encodable(cfg, longest) && |Encode(cfg, longest)| == cfg.max
    ensures MarkSuffices(cfg, mark) <==> forall s: seq<byte> :: Look(cfg, s).Wait? ==> |s| < mark
  {
    if mark <= cfg.End() {
      assert Look(cfg, Zeros(cfg.End())).Wait?;
    } else if mark < cfg.max {
      var f := Encode(cfg, longest);
      var s := f[..cfg.max - 1];
      assert f[cfg.offset..cfg.End()] == Digits(cfg.big, longest.field, cfg.width);
      assert s[cfg.offset..cfg.End()] == f[cfg.offset..cfg.End()];
      DigitsRoundTrip(cfg.big, longest.field, cfg.width);
      assert Look(cfg, s).Wait?;
    }
  }
}
