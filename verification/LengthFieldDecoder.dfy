/** The length-field decoder as it runs on the buffer. */
module LengthFieldDecoders {
  import opened Words
  import opened Endian
  import opened AsioBuffers
  import opened LengthField

  class LengthFieldBaseFrameDecoder {
    const config: Config
    /** `length_field_end_offset_`, computed once. */
    const endOffset: nat
    /** Whether the host is little-endian. */
    const little: bool

    ghost predicate Valid() {
      config.Valid() && endOffset == config.End()
    }

    constructor (config: Config, little: bool)
      requires config.Valid()
      ensures Valid() && this.config == config && this.little == little
    {
      this.config, this.little := config, little;
      endOffset := config.offset + config.width;
    }

    method GetUnadjustFrameLength(buffer: AsioBuffer) returns (field: nat)
      requires Valid() && buffer.Valid() && |buffer.contents| > endOffset
      ensures field == config.Field(buffer.contents)
    {
      match config.width
      case 1 => field := buffer.PeekIndexEndian(little, 1, config.offset, config.big);
      case 2 => field := buffer.PeekIndexEndian(little, 2, config.offset, config.big);
      case 4 => field := buffer.PeekIndexEndian(little, 4, config.offset, config.big);
      case _ => field := buffer.PeekIndexEndian(little, 8, config.offset, config.big);
    }

    /** The frames fired, in order; the buffer keeps what is left. `notified` says that the high-water
        callback ran, once. */
    method Decode(buffer: AsioBuffer) returns (frames: seq<seq<byte>>, notified: bool)
      requires Valid() && buffer.Valid()
      modifies buffer`read, buffer`readable, buffer`notify, buffer`contents
      ensures buffer.Valid() && Outcome(frames, buffer.contents) == Decoded(config, old(buffer.contents))
      ensures Alerts(old(buffer.notify), |old(buffer.contents)|, buffer.notify, |buffer.contents|, notified)
    {
      frames, notified := [], false;
      ghost var was, before := buffer.notify, |buffer.contents|;
      AlertedNone(was, before);
      ghost var all := Decoded(config, buffer.contents);
      PrependNone(all);
      var again := true;
      while again && buffer.readable > 0
        invariant buffer.Valid()
        invariant if again then Prepend(frames, Decoded(config, buffer.contents)) == all
                  else Outcome(frames, buffer.contents) == all
        invariant Alerted(was, before, buffer.notify, |buffer.contents|, notified)
        decreases again, |buffer.contents|
      {
        ghost var s, notify := buffer.contents, buffer.notify;
        var data, ran;
        again, data, ran := Turn(buffer);
        if |buffer.contents| < |s| {
          AlertedOn(was, before, notify, |s|, notified, buffer.notify, |buffer.contents|, ran);
        }
        notified := notified || ran;
        if again {
          FrameNext(frames, s, Look(config, s).n, data, buffer.contents);
          frames := frames + [data];
        }
      }
      AlertedMeans(was, before, buffer.notify, |buffer.contents|, notified);
    }

    /** One turn of the loop. Unless it comes `again`, the call returns; then no frame has been fired. */
    method Turn(buffer: AsioBuffer) returns (again: bool, data: seq<byte>, notified: bool)
      requires Valid() && buffer.Valid() && buffer.readable > 0
      modifies buffer`read, buffer`readable, buffer`notify, buffer`contents
      ensures buffer.Valid()
      ensures if again then
                var n := Look(config, old(buffer.contents));
                n.Frame? && config.strip <= n.n <= |old(buffer.contents)| && 0 < n.n
                && data == old(buffer.contents)[config.strip..n.n] && buffer.contents == old(buffer.contents)[n.n..]
              else Decoded(config, old(buffer.contents)) == Outcome([], buffer.contents)
      ensures |buffer.contents| <= |old(buffer.contents)|
      ensures |buffer.contents| == |old(buffer.contents)| ==> buffer.notify == old(buffer.notify) && !notified
      ensures |buffer.contents| < |old(buffer.contents)| ==>
                && (notified <==> old(buffer.notify).Below? && |buffer.contents| < old(buffer.notify).mask)
                && buffer.notify == if notified then Unset else old(buffer.notify)
    {
      again, data, notified := false, [], false;
      StepFits(config, buffer.contents);
      if buffer.readable <= endOffset {
        return;
      }
      var frameLength := GetUnadjustFrameLength(buffer);
      frameLength := Wrapped(frameLength + Wrapped(config.adjust + endOffset, TWO_32), TWO_64);
      if frameLength < endOffset {
        notified := buffer.Retrieve(endOffset);
        return;
      }
      if frameLength > config.max {
        return;
      }
      if buffer.readable < frameLength {
        return;
      }
      if config.strip > frameLength {
        notified := buffer.Retrieve(frameLength);
        return;
      }
      again := true;
      data, notified := ReadFrame(buffer, frameLength);
    }

    /** Firing a frame leaves what the call will have fired in all. */
    lemma FrameNext(frames: seq<seq<byte>>, s: seq<byte>, n: nat, data: seq<byte>, rest: seq<byte>)
      requires config.Valid() && Look(config, s) == Frame(n) && config.strip <= n <= |s|
      requires data == s[config.strip..n] && rest == s[n..]
      ensures Prepend(frames + [data], Decoded(config, rest)) == Prepend(frames, Decoded(config, s))
    {
      StepFits(config, s);
      PrependTwice(frames, [data], Decoded(config, rest));
    }

    /** The last lines of the loop, before the frame is fired. */
    method ReadFrame(buffer: AsioBuffer, frameLength: nat) returns (data: seq<byte>, notified: bool)
      requires buffer.Valid() && config.strip <= frameLength <= |buffer.contents|
      modifies buffer`read, buffer`readable, buffer`notify, buffer`contents
      ensures buffer.Valid()
      ensures data == old(buffer.contents)[config.strip..frameLength] && buffer.contents == old(buffer.contents)[frameLength..]
      ensures notified <==> old(buffer.notify).Below? && |buffer.contents| < old(buffer.notify).mask
      ensures buffer.notify == if notified then Unset else old(buffer.notify)
    {
      ghost var s := buffer.contents;
      var early := buffer.Retrieve(config.strip);
      var actualFrameLength := frameLength - config.strip;
      data, notified := buffer.Read(actualFrameLength);
      notified := early || notified;
      SliceFrame(s, config.strip, frameLength, data, buffer.contents);
    }

    lemma SliceFrame(s: seq<byte>, lo: nat, hi: nat, data: seq<byte>, rest: seq<byte>)
      requires lo <= hi <= |s| && s[lo..] == data + rest && |data| == hi - lo
      ensures data == s[lo..hi] && rest == s[hi..]
    {
      assert s[lo..hi] == s[lo..][..hi - lo] && s[hi..] == s[lo..][hi - lo..];
    }
  }
}
