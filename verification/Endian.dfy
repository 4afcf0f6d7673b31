/** Byte order: how a value lies in memory on either host, and how it is put in wire order. */
module Endian {

  type byte = x: int | 0 <= x < 256

  /** How many values `width` bytes can hold. */
  function Limit(width: nat): (l: nat)
    ensures l > 0
  {
    if width == 0 then 1 else 256 * Limit(width - 1)
  }

  /** The base-256 digits of `x`, least significant first. */
  function LittleDigits(x: nat, width: nat): (s: seq<byte>)
    ensures |s| == width
  {
    if width == 0 then [] else [x % 256] + LittleDigits(x / 256, width - 1)
  }

  function FromLittle(s: seq<byte>): nat {
    if s == [] then 0 else s[0] + 256 * FromLittle(s[1..])
  }

  function Reversed(s: seq<byte>): (r: seq<byte>)
    ensures |r| == |s| && forall i :: 0 <= i < |s| ==> r[i] == s[|s| - 1 - i]
  {
    seq(|s|, i requires 0 <= i < |s| => s[|s| - 1 - i])
  }

  /** The digits of `x` in the order they go on the wire. */
  function Digits(big: bool, x: nat, width: nat): seq<byte> {
    if big then Reversed(LittleDigits(x, width)) else LittleDigits(x, width)
  }

  function FromDigits(big: bool, s: seq<byte>): nat {
    if big then FromLittle(Reversed(s)) else FromLittle(s)
  }

  lemma LimitNext(width: nat)
    ensures Limit(width + 1) == 256 * Limit(width)
  {
  }

  lemma DivTwice(x: nat, a: nat)
    requires a > 0
    ensures x / 256 / a == x / (256 * a)
  {
    var q, r := x / 256 / a, x / 256 % a;
    assert x / 256 == q * a + r;
    assert x == q * (256 * a) + (256 * r + x % 256);
    DivUnique(x, 256 * a, q, 256 * r + x % 256);
  }

  lemma DivUnique(x: nat, d: nat, q: nat, r: nat)
    requires x == q * d + r && r < d
    ensures x / d == q
  {
    var e := x / d;
    assert x == e * d + x % d;
    if e < q {
      Multiples(e, q, d);
    } else if e > q {
      Multiples(q, e, d);
    }
  }

  lemma {:induction false} Multiples(a: nat, b: nat, d: nat)
    requires a < b
    ensures a * d + d <= b * d
  {
    assert (b - 1) * d + d == b * d;
    if a < b - 1 {
      Multiples(a, b - 1, d);
    }
  }

  lemma {:induction false} LittleAt(x: nat, width: nat, i: nat)
    requires i < width
    ensures LittleDigits(x, width)[i] == x / Limit(i) % 256
  {
    if i > 0 {
      LittleAt(x / 256, width - 1, i - 1);
      LimitNext(i - 1);
      DivTwice(x, Limit(i - 1));
    }
  }

  /** Each digit by its weight: in big-endian order the most significant one comes first, in
      little-endian order the least significant one. */
  lemma DigitAt(x: nat, width: nat, i: nat)
    requires i < width
    ensures |Digits(true, x, width)| == |Digits(false, x, width)| == width
    ensures Digits(true, x, width)[i] == x / Limit(width - 1 - i) % 256
    ensures Digits(false, x, width)[i] == x / Limit(i) % 256
  {
    LittleAt(x, width, i);
    LittleAt(x, width, width - 1 - i);
  }

  /** The first `n` bytes of `s`, each times its weight. */
  ghost function Weighed(big: bool, s: seq<byte>, n: nat): nat
    requires n <= |s|
  {
    if n == 0 then 0 else Weighed(big, s, n - 1) + s[n - 1] * Limit(if big then |s| - n else n - 1)
  }

  lemma {:induction false} FromLittleLast(s: seq<byte>, b: byte)
    ensures FromLittle(s + [b]) == FromLittle(s) + b * Limit(|s|)
  {
    if s == [] {
      assert FromLittle([b]) == b + 256 * FromLittle([b][1..]);
    } else {
      assert (s + [b])[1..] == s[1..] + [b];
      FromLittleLast(s[1..], b);
      LimitNext(|s| - 1);
      assert 256 * (b * Limit(|s| - 1)) == b * Limit(|s|);
    }
  }

  lemma {:induction false} WeighedLittle(s: seq<byte>, n: nat)
    requires n <= |s|
    ensures Weighed(false, s, n) == FromLittle(s[..n])
  {
    if n > 0 {
      WeighedLittle(s, n - 1);
      FromLittleLast(s[..n - 1], s[n - 1]);
      assert s[..n] == s[..n - 1] + [s[n - 1]];
    }
  }

  lemma {:induction false} WeighedBig(s: seq<byte>, n: nat)
    requires n <= |s|
    ensures Weighed(true, s, n) == FromLittle(Reversed(s[..n])) * Limit(|s| - n)
  {
    if n > 0 {
      WeighedBig(s, n - 1);
      var before := FromLittle(Reversed(s[..n - 1]));
      assert Reversed(s[..n]) == [s[n - 1]] + Reversed(s[..n - 1]);
      assert Reversed(s[..n])[1..] == Reversed(s[..n - 1]);
      assert FromLittle(Reversed(s[..n])) == s[n - 1] + 256 * before;
      LimitNext(|s| - n);
      Weigh(s[n - 1], before, Limit(|s| - n));
    }
  }

  lemma Weigh(b: nat, before: nat, limit: nat)
    ensures (b + 256 * before) * limit == b * limit + before * (256 * limit)
  {
  }

  /** A value is the sum of its bytes by weight. */
  lemma FromDigitsWeighed(big: bool, s: seq<byte>)
    ensures FromDigits(big, s) == Weighed(big, s, |s|)
  {
    assert s[..|s|] == s;
    if big {
      WeighedBig(s, |s|);
    } else {
      WeighedLittle(s, |s|);
    }
  }

  lemma {:induction false} FromLittleDigits(x: nat, width: nat)
    requires x < Limit(width)
    ensures FromLittle(LittleDigits(x, width)) == x
  {
    if width > 0 {
      FromLittleDigits(x / 256, width - 1);
      assert LittleDigits(x, width)[1..] == LittleDigits(x / 256, width - 1);
    }
  }

  lemma {:induction false} LittleDigitsOf(s: seq<byte>)
    ensures FromLittle(s) < Limit(|s|) && LittleDigits(FromLittle(s), |s|) == s
  {
    if s != [] {
      LittleDigitsOf(s[1..]);
      var x := FromLittle(s);
      assert x % 256 == s[0] && x / 256 == FromLittle(s[1..]);
      assert s == [s[0]] + s[1..];
    }
  }

  lemma ReversedTwice(s: seq<byte>)
    ensures Reversed(Reversed(s)) == s
  {
  }

  /** Reading the digits of a value gives the value back, in either order. */
  lemma DigitsRoundTrip(big: bool, x: nat, width: nat)
    requires x < Limit(width)
    ensures FromDigits(big, Digits(big, x, width)) == x
  {
    FromLittleDigits(x, width);
    ReversedTwice(LittleDigits(x, width));
  }

  lemma DigitsOfBytes(big: bool, s: seq<byte>)
    ensures FromDigits(big, s) < Limit(|s|) && Digits(big, FromDigits(big, s), |s|) == s
  {
    LittleDigitsOf(s);
    LittleDigitsOf(Reversed(s));
    ReversedTwice(s);
  }

  /** The value whose bytes in memory, on this host, are those of `value` reversed. A value's bytes
      in memory are its digits, most significant first exactly on a host that is not `little`. */
  method ChangeEndian(little: bool, value: nat, width: nat) returns (result: nat)
    requires value < Limit(width)
    ensures result < Limit(width)
    ensures Digits(!little, result, width) == Reversed(Digits(!little, value, width))
  {
    var valueBytes := Digits(!little, value, width);
    var resultBytes := new byte[width];
    var i := 0;
    while i < width
      invariant 0 <= i <= width
      invariant forall k :: 0 <= k < i ==> resultBytes[k] == valueBytes[width - k - 1]
    {
      resultBytes[i] := valueBytes[width - i - 1];
      i := i + 1;
    }
    result := FromDigits(!little, resultBytes[..]);
    DigitsOfBytes(!little, resultBytes[..]);
    assert resultBytes[..] == Reversed(valueBytes);
  }

  /** What `adapte_endian` returns. */
  function Adapted(little: bool, value: nat, width: nat, big: bool): nat {
    if little == big then FromDigits(!little, Reversed(Digits(!little, value, width))) else value
  }

  method AdaptEndian(little: bool, value: nat, width: nat, big: bool) returns (result: nat)
    requires value < Limit(width)
    ensures result == Adapted(little, value, width, big) && result < Limit(width)
  {
    if (little && big) || (!little && !big) {
      result := ChangeEndian(little, value, width);
      DigitsRoundTrip(!little, result, width);
    } else {
      result := value;
    }
  }

  /** On either host, the adapted value lies in memory in the wire order asked for. */
  lemma AdaptedBytes(little: bool, value: nat, width: nat, big: bool)
    requires value < Limit(width)
    ensures Adapted(little, value, width, big) < Limit(width)
    ensures Digits(!little, Adapted(little, value, width, big), width) == Digits(big, value, width)
  {
    var s := Digits(!little, value, width);
    DigitsOfBytes(!little, Reversed(s));
    ReversedTwice(LittleDigits(value, width));
  }

  /** On either host, adapting the value that `s` has in memory gives the value that `s` has on the wire. */
  lemma AdaptedValue(little: bool, s: seq<byte>, big: bool)
    ensures Adapted(little, FromDigits(!little, s), |s|, big) == FromDigits(big, s)
  {
    DigitsOfBytes(!little, s);
    ReversedTwice(s);
  }

  /** `adapte_endian` is its own inverse. */
  lemma AdaptedTwice(little: bool, value: nat, width: nat, big: bool)
    requires value < Limit(width)
    ensures Adapted(little, Adapted(little, value, width, big), width, big) == value
  {
    AdaptedBytes(little, value, width, big);
    var once := Adapted(little, value, width, big);
    DigitsRoundTrip(!little, once, width);
    DigitsRoundTrip(big, value, width);
    AdaptedValue(little, Digits(!little, once, width), big);
  }
}
