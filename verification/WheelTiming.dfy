/** The arithmetic of the five-level wheel: which spoke an interval is put in, and at which
    tick that spoke is next emptied. */
module WheelTiming {
  import opened Words

  const GRANULARITY: nat := 10
  const WHEEL_NUM: nat := 5

  function Size(w: nat): nat {
    if w == 0 then 256 else 64
  }

  /** `x` spokes of wheel `w`, in ticks. */
  function Ticks(w: nat, x: nat): nat {
    match w
    case 0 => x
    case 1 => x * 0x100
    case 2 => x * 0x4000
    case 3 => x * 0x10_0000
    case _ => x * 0x400_0000
  }

  /** `n` ticks, in whole spokes of wheel `w`. */
  function Spokes(w: nat, n: nat): nat {
    match w
    case 0 => n
    case 1 => n / 0x100
    case 2 => n / 0x4000
    case 3 => n / 0x10_0000
    case _ => n / 0x400_0000
  }

  function FirstRing(w: nat): nat {
    if w == 0 then 0 else 256 + 64 * (w - 1)
  }

  function WheelOf(ring: nat): nat {
    if ring < 256 then 0 else 1 + (ring - 256) / 64
  }

  function SpokeOf(ring: nat): nat {
    if ring < 256 then ring else (ring - 256) % 64
  }

  function SelectWheel(interval: nat): nat {
    if interval < 0x100 then 0
    else if interval < 0x4000 then 1
    else if interval < 0x10_0000 then 2
    else if interval < 0x400_0000 then 3
    else 4
  }

  /** `index` in `add_timer_node`; the product of the spoke index and the threshold is a
      32-bit one, so wheel 4's wraps to 0 while its index is transiently 64. */
  function SelectSpoke(interval: nat, w: nat, spokeIndex: nat): nat
    requires w != 0 ==> Ticks(w, 1) <= interval
  {
    if w == 0 then (interval + spokeIndex) % 256
    else Spokes(w, interval - Ticks(w, 1) + Ticks(w, spokeIndex) % TWO_32) % 64
  }

  /** The turn, counting from 0, at which wheel `w`, having made `turns` turns, reaches `spoke`. */
  function Turn(w: nat, turns: nat, spoke: nat): nat {
    turns + (if w == 0 then (spoke - turns) % 256 else (spoke - turns) % 64)
  }

  /** How many ticks are done when that spoke has next been emptied. */
  function Due(w: nat, turns: nat, spoke: nat): nat {
    Ticks(w, Turn(w, turns, spoke) + 1)
  }

  /** The selected slot lies `interval` ahead in whole spokes, less one on the higher wheels, and
      never a full round away. */
  lemma PlacedTurn(interval: nat, turns: nat, spokeIndex: nat)
    requires interval < TWO_32
    requires spokeIndex <= Size(SelectWheel(interval))
    requires spokeIndex % Size(SelectWheel(interval)) == turns % Size(SelectWheel(interval))
    ensures var w := SelectWheel(interval);
            var spoke := SelectSpoke(interval, w, spokeIndex);
            && spoke < Size(w)
            && Turn(w, turns, spoke) == turns + (if w == 0 then interval else Spokes(w, interval) - 1)
            && Turn(w, turns, spoke) - turns < Size(w)
  {
    var w := SelectWheel(interval);
    if w == 0 {
      Congruent256(interval, spokeIndex, turns);
    } else {
      HigherSpoke(interval, w, spokeIndex);
      Congruent64(Spokes(w, interval) - 1, spokeIndex, turns);
    }
  }

  lemma HigherSpoke(interval: nat, w: nat, spokeIndex: nat)
    requires interval < TWO_32 && w == SelectWheel(interval) && w != 0 && spokeIndex <= 64
    ensures 1 <= Spokes(w, interval) <= 63
    ensures SelectSpoke(interval, w, spokeIndex) == (Spokes(w, interval) - 1 + spokeIndex) % 64
  {
    var q := Spokes(w, interval);
    var k := if w == 4 then spokeIndex % 64 else spokeIndex;
    match w {
      case 1 => assert 0x100 * q <= interval < 0x100 * q + 0x100;
      case 2 => assert 0x4000 * q <= interval < 0x4000 * q + 0x4000;
      case 3 => assert 0x10_0000 * q <= interval < 0x10_0000 * q + 0x10_0000;
      case _ => assert 0x400_0000 * q <= interval < 0x400_0000 * q + 0x400_0000;
    }
    assert Ticks(w, spokeIndex) % TWO_32 == Ticks(w, k);
    assert Spokes(w, interval - Ticks(w, 1) + Ticks(w, k)) == q - 1 + k;
    if k != spokeIndex { Remainder64(q - 1 + 64, 1, q - 1); }
  }

  lemma Congruent64(d: nat, i: nat, t: nat)
    requires d < 64 && i % 64 == t % 64
    ensures ((d + i) % 64 - t) % 64 == d
  {
    var a, b, r := i / 64, t / 64, i % 64;
    assert i == 64 * a + r && t == 64 * b + r;
    var wrap := if d + r < 64 then 0 else 1;
    Remainder64(d + i, a + wrap, d + r - 64 * wrap);
    Remainder64(d + r - 64 * wrap - t, -b - wrap, d);
  }

  lemma Remainder64(x: int, q: int, d: int)
    requires x == 64 * q + d && 0 <= d < 64
    ensures x % 64 == d
  {
  }

  lemma Congruent256(d: nat, i: nat, t: nat)
    requires d < 256 && i % 256 == t % 256
    ensures ((d + i) % 256 - t) % 256 == d
  {
    var a, b, r := i / 256, t / 256, i % 256;
    assert i == 256 * a + r && t == 256 * b + r;
    var wrap := if d + r < 256 then 0 else 1;
    Remainder256(d + i, a + wrap, d + r - 256 * wrap);
    Remainder256(d + r - 256 * wrap - t, -b - wrap, d);
  }

  lemma Remainder256(x: int, q: int, d: int)
    requires x == 256 * q + d && 0 <= d < 256
    ensures x % 256 == d
  {
  }

  /** A slot is emptied no later than `interval` ticks after its node was put there, plus the
      tick that drains it in wheel 0, where the time is also exact. */
  lemma PlacedDue(interval: nat, turns: nat, spokeIndex: nat, tick: nat)
    requires interval < TWO_32
    requires spokeIndex <= Size(SelectWheel(interval))
    requires spokeIndex % Size(SelectWheel(interval)) == turns % Size(SelectWheel(interval))
    requires Ticks(SelectWheel(interval), turns) <= tick
    ensures var w := SelectWheel(interval);
            var due := Due(w, turns, SelectSpoke(interval, w, spokeIndex));
            && (w == 0 ==> due == turns + interval + 1)
            && (w != 0 ==> due <= tick + interval)
  {
    PlacedTurn(interval, turns, spokeIndex);
    var w := SelectWheel(interval);
    match w case 0 => case 1 => case 2 => case 3 => case _ =>
  }

  /** One turn of a wheel leaves the due time of every spoke but the one passed. */
  lemma TurnKept(w: nat, turns: nat, spoke: nat)
    requires spoke < Size(w) && spoke != turns % Size(w)
    ensures Turn(w, turns + 1, spoke) == Turn(w, turns, spoke)
  {
    var x := spoke - turns;
    if w == 0 {
      if x % 256 == 0 { Remainder256(turns, -(x / 256), spoke); }
      Remainder256(x - 1, x / 256, x % 256 - 1);
    } else {
      if x % 64 == 0 { Remainder64(turns, -(x / 64), spoke); }
      Remainder64(x - 1, x / 64, x % 64 - 1);
    }
  }

  /** Between ticks every slot of every wheel is due strictly later. */
  lemma DueLater(w: nat, spoke: nat, tick: nat)
    requires w < WHEEL_NUM
    ensures Due(w, Spokes(w, tick), spoke) > tick
  {
    match w case 0 => case 1 => case 2 => case 3 => case _ =>
  }

  /** Whether the count `tick` makes wheel `w` turn. */
  predicate Turns(w: nat, tick: nat) {
    match w
    case 0 => true
    case 1 => tick % 0x100 == 0
    case 2 => tick % 0x4000 == 0
    case 3 => tick % 0x10_0000 == 0
    case _ => tick % 0x400_0000 == 0
  }

  /** Wheel `w + 1` must turn exactly when wheel `w` turns and comes round. */
  lemma Carry(w: nat, tick: nat)
    requires w < 4
    ensures Turns(w, tick) && Spokes(w, tick) % Size(w) == 0 <==> Turns(w + 1, tick)
  {
    match w {
      case 0 =>
      case 1 => Rounds1(tick);
      case 2 => Rounds2(tick);
      case _ => Rounds3(tick);
    }
  }

  lemma Rounds1(tick: nat)
    ensures tick % 0x100 == 0 && tick / 0x100 % 64 == 0 <==> tick % 0x4000 == 0
  {
    var q, r := tick / 0x100, tick % 0x100;
    RoundsAt1(q / 64, q % 64, r);
    assert tick == 0x4000 * (q / 64) + 0x100 * (q % 64) + r;
  }

  lemma RoundsAt1(a: nat, b: nat, r: nat)
    requires b < 64 && r < 0x100
    ensures (0x4000 * a + 0x100 * b + r) % 0x4000 == 0x100 * b + r
  {
  }

  lemma Rounds2(tick: nat)
    ensures tick % 0x4000 == 0 && tick / 0x4000 % 64 == 0 <==> tick % 0x10_0000 == 0
  {
    var q, r := tick / 0x4000, tick % 0x4000;
    RoundsAt2(q / 64, q % 64, r);
    assert tick == 0x10_0000 * (q / 64) + 0x4000 * (q % 64) + r;
  }

  lemma RoundsAt2(a: nat, b: nat, r: nat)
    requires b < 64 && r < 0x4000
    ensures (0x10_0000 * a + 0x4000 * b + r) % 0x10_0000 == 0x4000 * b + r
  {
  }

  lemma Rounds3(tick: nat)
    ensures tick % 0x10_0000 == 0 && tick / 0x10_0000 % 64 == 0 <==> tick % 0x400_0000 == 0
  {
    var q, r := tick / 0x10_0000, tick % 0x10_0000;
    RoundsAt3(q / 64, q % 64, r);
    assert tick == 0x400_0000 * (q / 64) + 0x10_0000 * (q % 64) + r;
  }

  lemma RoundsAt3(a: nat, b: nat, r: nat)
    requires b < 64 && r < 0x10_0000
    ensures (0x400_0000 * a + 0x10_0000 * b + r) % 0x400_0000 == 0x10_0000 * b + r
  {
  }

  lemma CarryAbove(w: nat, v: nat, tick: nat)
    requires w <= v < WHEEL_NUM && Turns(v, tick)
    ensures Turns(w, tick)
  {
    if w < v {
      Carry(v - 1, tick);
      CarryAbove(w, v - 1, tick);
    }
  }

  /** A tick turns the wheels whose unit divides the new count, and no other. */
  lemma TickTurns(v: nat, tick: nat)
    requires v < WHEEL_NUM && tick > 0
    ensures Spokes(v, tick) == Spokes(v, tick - 1) + (if Turns(v, tick) then 1 else 0)
  {
    match v case 0 => case 1 => case 2 => case 3 => case _ =>
  }

  lemma RingIndex(w: nat, spoke: nat)
    requires w < WHEEL_NUM && spoke < Size(w)
    ensures WheelOf(FirstRing(w) + spoke) == w && SpokeOf(FirstRing(w) + spoke) == spoke && FirstRing(w) + spoke < 512
  {
  }

  lemma RingOf(ring: nat)
    requires ring < 512
    ensures WheelOf(ring) < WHEEL_NUM && SpokeOf(ring) < Size(WheelOf(ring))
    ensures ring == FirstRing(WheelOf(ring)) + SpokeOf(ring)
  {
  }

  lemma SpokesRound(w: nat, n: nat)
    ensures Ticks(w, Spokes(w, n)) <= n
  {
  }

  lemma NextSpoke(t: nat)
    ensures (t + 1) % 64 == if t % 64 == 63 then 0 else t % 64 + 1
  {
    var q, r := t / 64, t % 64;
    assert t + 1 == 64 * q + (r + 1);
    if r == 63 { Remainder64(t + 1, q + 1, 0); } else { Remainder64(t + 1, q, r + 1); }
  }

  lemma NextSpoke0(t: nat)
    ensures (t + 1) % 256 == if t % 256 == 255 then 0 else t % 256 + 1
  {
    var q, r := t / 256, t % 256;
    assert t + 1 == 256 * q + (r + 1);
    if r == 255 { Remainder256(t + 1, q + 1, 0); } else { Remainder256(t + 1, q, r + 1); }
  }
}
