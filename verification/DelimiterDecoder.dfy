/** The delimiter decoder as it runs on the buffer. */
module DelimiterDecoders {
  import opened Endian
  import opened AsioBuffers
  import opened Delimiters

  datatype Result<T> = Ok(value: T) | InvalidArgument

  class DelimiterBasedFrameDecoder {
    const config: Config
    const little: bool

    constructor (config: Config, little: bool)
      requires config.Valid()
      ensures this.config == config && this.little == little
    {
      this.config, this.little := config, little;
    }

    /** The checks of the constructors: an empty delimiter is refused, at any place in the list. */
    static method ValidateDelimiters(strings: seq<seq<byte>>) returns (r: Result<seq<Delimiter>>)
      ensures r.InvalidArgument? <==> [] in strings
      ensures r.Ok? ==> |r.value| == |strings| && forall k :: 0 <= k < |strings| ==> r.value[k] == strings[k]
    {
      var delimiters: seq<Delimiter> := [];
      for k := 0 to |strings|
        invariant [] !in strings[..k]
        invariant |delimiters| == k && forall j :: 0 <= j < k ==> delimiters[j] == strings[j]
      {
        if strings[k] == [] {
          return InvalidArgument;
        }
        delimiters := delimiters + [strings[k]];
      }
      assert strings[..|strings|] == strings;
      r := Ok(delimiters);
    }

    /** The first place where the needle occurs, found byte by byte; a partial match that reaches the
        end of the buffer ends the search. */
    method IndexOf(haystack: AsioBuffer, needle: Delimiter) returns (index: int)
      requires haystack.Valid()
      ensures IsIndex(haystack.contents, needle, index)
    {
      ghost var s := haystack.contents;
      var i := 0;
      while i < haystack.readable
        invariant 0 <= i <= |s| && forall j: nat :: j < i ==> !OccursAt(s, needle, j)
      {
        var at, n := i, 0;
        while n < |needle|
          invariant 0 <= n <= |needle| && at == i + n && (n < |needle| ==> at < |s|) && at <= |s|
          invariant s[i..at] == needle[..n]
        {
          var c := haystack.PeekIndexEndian(little, 1, at, true);
          OneByte(s, at);
          if c != needle[n] {
            break;
          }
          at := at + 1;
          MatchNext(s, needle, i, n);
          if at == haystack.readable && n != |needle| - 1 {
            TooShort(s, needle, i);
            return -1;
          }
          n := n + 1;
        }
        if n == |needle| {
          return i;
        }
        Mismatch(s, needle, i, n);
        i := i + 1;
      }
      TooShort(s, needle, i);
      index := -1;
    }

    lemma OneByte(s: seq<byte>, at: nat)
      requires at < |s|
      ensures FromDigits(true, s[at..at + 1]) == s[at]
    {
      assert s[at..at + 1] == [s[at]] && Reversed([s[at]]) == [s[at]];
      assert FromLittle([s[at]]) == s[at] + 256 * FromLittle([s[at]][1..]);
    }

    lemma MatchNext(s: seq<byte>, d: Delimiter, i: nat, n: nat)
      requires i + n < |s| && n < |d| && s[i..i + n] == d[..n] && s[i + n] == d[n]
      ensures s[i..i + n + 1] == d[..n + 1]
    {
      assert s[i..i + n + 1] == s[i..i + n] + [s[i + n]] && d[..n + 1] == d[..n] + [d[n]];
    }

    lemma TooShort(s: seq<byte>, d: Delimiter, i: nat)
      requires i + |d| > |s| && forall j: nat :: j < i ==> !OccursAt(s, d, j)
      ensures IsIndex(s, d, -1)
    {
    }

    lemma Mismatch(s: seq<byte>, d: Delimiter, i: nat, n: nat)
      requires n < |d| && i + n < |s| && s[i + n] != d[n]
      ensures !OccursAt(s, d, i)
    {
      assert i + |d| <= |s| ==> s[i..i + |d|][n] == s[i + n];
    }

    /** The loop over the delimiters: the first cut that is short enough, if there is one. */
    method FindCut(buffer: AsioBuffer) returns (minFrameLength: int, minDelim: seq<byte>)
      requires config.Valid() && buffer.Valid()
      ensures match Earliest(config, buffer.contents, |config.delimiters|)
              case NoCut => minDelim == []
              case Cut(at, d) => minFrameLength == at <= config.max && minDelim == d
    {
      ghost var s := buffer.contents;
      minFrameLength, minDelim := Bound(config.max), [];
      for k := 0 to |config.delimiters|
        invariant match Earliest(config, s, k)
                  case NoCut => minDelim == [] && minFrameLength == Bound(config.max)
                  case Cut(at, d) => minFrameLength == at < Bound(config.max) && minDelim == d
      {
        var frameLength := IndexOf(buffer, config.delimiters[k]);
        IndexUnique(s, config.delimiters[k], frameLength);
        if frameLength >= 0 && frameLength < minFrameLength {
          minFrameLength := frameLength;
          minDelim := config.delimiters[k];
        }
      }
    }

    /** The frames fired, in order. The call returns unless it `spins`: then a turn of its loop has
        changed nothing, and so would every other. A cut is never too long once it is found, so the
        arm that would drop a long frame is not reached. */
    method Decode(buffer: AsioBuffer) returns (frames: seq<seq<byte>>, spins: bool, notified: bool)
      requires config.Valid() && buffer.Valid()
      modifies buffer`read, buffer`readable, buffer`notify, buffer`contents
      ensures buffer.Valid() && Outcome(frames, buffer.contents, spins) == Decoded(config, old(buffer.contents))
      ensures Alerts(old(buffer.notify), |old(buffer.contents)|, buffer.notify, |buffer.contents|, notified)
    {
      frames, spins, notified := [], false, false;
      ghost var was, before := buffer.notify, |buffer.contents|;
      AlertedNone(was, before);
      ghost var all := Decoded(config, buffer.contents);
      assert Prepend([], all) == all;
      while buffer.readable > 0
        invariant buffer.Valid() && Prepend(frames, Decoded(config, buffer.contents)) == all
        invariant Alerted(was, before, buffer.notify, |buffer.contents|, notified)
        decreases |buffer.contents|
      {
        ghost var s, notify := buffer.contents, buffer.notify;
        CutFits(config, s);
        var minFrameLength, minDelim := FindCut(buffer);
        if minDelim == [] {
          spins := true;
          break;
        }
        if minFrameLength > config.max {
          assert false;
        }
        var data, ran := ReadFrame(buffer, minFrameLength, minDelim);
        AlertedOn(was, before, notify, |s|, notified, buffer.notify, |buffer.contents|, ran);
        notified := notified || ran;
        FrameNext(frames, s, minFrameLength, minDelim, data, buffer.contents);
        frames := frames + [data];
      }
      AlertedMeans(was, before, buffer.notify, |buffer.contents|, notified);
    }

    /** The last lines of the loop, before the frame is fired. */
    method ReadFrame(buffer: AsioBuffer, length: nat, delim: Delimiter) returns (data: seq<byte>, notified: bool)
      requires buffer.Valid() && OccursAt(buffer.contents, delim, length)
      modifies buffer`read, buffer`readable, buffer`notify, buffer`contents
      ensures buffer.Valid() && buffer.contents == old(buffer.contents)[length + |delim|..]
      ensures data == Fired(config, Piece(old(buffer.contents)[..length], delim))
      ensures notified <==> old(buffer.notify).Below? && |buffer.contents| < old(buffer.notify).mask
      ensures buffer.notify == if notified then Unset else old(buffer.notify)
    {
      ghost var s := buffer.contents;
      SplitAt(s, length, delim);
      if config.strip {
        var early;
        data, early := buffer.Read(length);
        notified := buffer.Retrieve(|delim|);
        notified := early || notified;
        assert data == s[..length] && s[length..][|delim|..] == s[length + |delim|..];
      } else {
        data, notified := buffer.Read(length + |delim|);
        assert data == s[..length] + delim;
      }
    }

    /** Firing a frame leaves what the call will have fired in all. */
    lemma FrameNext(frames: seq<seq<byte>>, s: seq<byte>, at: nat, d: Delimiter, data: seq<byte>, rest: seq<byte>)
      requires config.Valid() && s != [] && Earliest(config, s, |config.delimiters|) == Cut(at, d)
      requires OccursAt(s, d, at) && rest == s[at + |d|..] && data == Fired(config, Piece(s[..at], d))
      ensures Prepend(frames + [data], Decoded(config, rest)) == Prepend(frames, Decoded(config, s))
    {
      var o := Decoded(config, rest);
      assert (frames + [data]) + o.frames == frames + ([data] + o.frames);
    }
  }
}
