/** Ids: UUIDv7 (section 5.7 of RFC 9562), minted in strictly increasing order of their text. */
module Ids {
  import opened Order

  // ----- hexadecimal

  function HexChar(d: int): char
    requires 0 <= d < 16
  {
    if d < 10 then ('0' as int + d) as char else ('a' as int + d - 10) as char
  }

  function DigitOf(c: char): int {
    if '0' <= c <= '9' then c as int - '0' as int else c as int - 'a' as int + 10
  }

  predicate IsHex(c: char) {
    '0' <= c <= '9' || 'a' <= c <= 'f'
  }

  /** The `k` low hexadecimal digits of `n`, highest first. */
  function Hex(n: nat, k: nat): (s: string)
    ensures |s| == k && forall i :: 0 <= i < k ==> IsHex(s[i])
    decreases k
  {
    if k == 0 then "" else Hex(n / 16, k - 1) + [HexChar(n % 16)]
  }

  function ParseHex(s: string): int {
    if s == "" then 0 else 16 * ParseHex(s[..|s| - 1]) + DigitOf(s[|s| - 1])
  }

  predicate HexFits(n: nat, k: nat)
    decreases k
  {
    if k == 0 then n == 0 else HexFits(n / 16, k - 1)
  }

  lemma {:induction false} ParseOfHex(n: nat, k: nat)
    requires HexFits(n, k)
    ensures ParseHex(Hex(n, k)) == n
    decreases k
  {
    if k > 0 { ParseOfHex(n / 16, k - 1); }
  }

  lemma {:induction false} HexLess(n: nat, m: nat, k: nat)
    requires n < m && HexFits(n, k) && HexFits(m, k)
    ensures Less(Hex(n, k), Hex(m, k))
    decreases k
  {
    var c, d := [HexChar(n % 16)], [HexChar(m % 16)];
    if n / 16 < m / 16 {
      HexLess(n / 16, m / 16, k - 1);
      LessByHead(Hex(n / 16, k - 1), Hex(m / 16, k - 1), c, d);
    } else {
      LessAfterPrefix(Hex(n / 16, k - 1), c, d);
    }
  }

  lemma {:induction false} HexSplits(n: nat, k: nat)
    ensures Hex(n, k + 2) == Hex(n / 256, k) + Hex(n % 256, 2)
  {
    assert Hex(n, k + 2) == Hex(n / 16, k + 1) + [HexChar(n % 16)];
    assert Hex(n / 16, k + 1) == Hex(n / 16 / 16, k) + [HexChar(n / 16 % 16)];
    assert n / 16 / 16 == n / 256 && n / 16 % 16 == n % 256 / 16 && n % 256 % 16 == n % 16;
    assert Hex(n % 256, 2) == Hex(n % 256 / 16, 1) + [HexChar(n % 256 % 16)];
    assert Hex(n % 256 / 16, 1) == Hex(n % 256 / 16 / 16, 0) + [HexChar(n % 256 / 16 % 16)];
  }

  // ----- the clock

  const SEQUENCE_MAX := 0xfff
  const TOO_LATE := 0x1_0000_0000_0000

  datatype Clock = Clock(lastMs: int, sequence: nat)

  const FRESH := Clock(-1, 0)

  /** What minting once at `now` leaves: the millisecond and the sequence the id carries. */
  function Tick(clock: Clock, now: int): Clock {
    if now > clock.lastMs then Clock(now, 0)
    else if clock.sequence < SEQUENCE_MAX then Clock(clock.lastMs, clock.sequence + 1)
    else Clock(clock.lastMs + 1, 0)
  }

  function Ticks(clock: Clock, readings: seq<int>): Clock {
    if readings == [] then clock else Tick(Ticks(clock, readings[..|readings| - 1]), readings[|readings| - 1])
  }

  predicate Before(a: Clock, b: Clock) {
    a.lastMs < b.lastMs || (a.lastMs == b.lastMs && a.sequence < b.sequence)
  }

  // ----- the text

  /** A quotient as `&` sees it: truncated towards zero, then its eight low bits. */
  function LowByte(ms: int, divisor: int): (b: nat)
    requires divisor > 0
    ensures b < 256
  {
    (if ms >= 0 then ms / divisor else -(-ms / divisor)) % 256
  }

  /** `tail` is what the random generator filled bytes 8 to 15 with. */
  function BytesOf(clock: Clock, tail: seq<nat>): (b: seq<nat>)
    requires |tail| == 8 && clock.sequence <= SEQUENCE_MAX
    ensures |b| == 16
  {
    [LowByte(clock.lastMs, 0x100_0000_0000), LowByte(clock.lastMs, 0x1_0000_0000), LowByte(clock.lastMs, 0x100_0000),
     LowByte(clock.lastMs, 0x1_0000), LowByte(clock.lastMs, 0x100), LowByte(clock.lastMs, 1),
     0x70 + clock.sequence / 256, clock.sequence % 256,
     0x80 + tail[0] % 64] + tail[1..]
  }

  function HexOf(bytes: seq<nat>): (s: string)
    ensures |s| == 2 * |bytes| && forall i :: 0 <= i < |s| ==> IsHex(s[i])
  {
    if bytes == [] then "" else Hex(bytes[0], 2) + HexOf(bytes[1..])
  }

  function TextOf(bytes: seq<nat>): string
    requires |bytes| == 16
  {
    HexOf(bytes[..4]) + "-" + HexOf(bytes[4..6]) + "-" + HexOf(bytes[6..8]) + "-" + HexOf(bytes[8..10]) + "-" +
      HexOf(bytes[10..])
  }

  /** The layout of section 5.7: 48 bits of milliseconds, the version, 12 of sequence, the variant, the rest random. */
  function Uuid7(ms: nat, sequence: nat, tail: seq<nat>): string
    requires |tail| == 8
  {
    Joined(Hex(ms / 0x1_0000, 8), Hex(ms % 0x1_0000, 4), Hex(sequence, 3), Ending(tail))
  }

  function Joined(high: string, low: string, sequence: string, ending: string): string {
    high + ("-" + (low + ("-7" + (sequence + ("-" + ending)))))
  }

  function Ending(tail: seq<nat>): string
    requires |tail| == 8
  {
    Hex(0x80 + tail[0] % 64, 2) + Hex(tail[1], 2) + "-" + HexOf(tail[2..])
  }

  class Minter {
    var lastMs: int
    var sequence: nat

    ghost predicate Valid()
      reads this
    {
      sequence <= SEQUENCE_MAX
    }

    ghost function State(): Clock
      reads this
    {
      Clock(lastMs, sequence)
    }

    constructor ()
      ensures Valid() && State() == FRESH
    {
      lastMs, sequence := -1, 0;
    }

    method MintId(now: int, tail: seq<nat>) returns (id: string)
      requires Valid() && |tail| == 8 && forall i :: 0 <= i < 8 ==> tail[i] < 256
      modifies this
      ensures Valid() && State() == Tick(old(State()), now) && id == TextOf(BytesOf(State(), tail))
    {
      var ms := now;
      if ms == lastMs {
        sequence := sequence + 1;
        if sequence > SEQUENCE_MAX {
          ms := lastMs + 1;
          sequence := 0;
        }
      } else if ms > lastMs {
        sequence := 0;
      } else {
        ms := lastMs;
        sequence := sequence + 1;
        if sequence > SEQUENCE_MAX {
          ms := lastMs + 1;
          sequence := 0;
        }
      }
      lastMs := ms;
      var bytes := Stamp(ms, sequence, tail);
      id := TextOf(bytes[..]);
    }

    static method Stamp(ms: int, sequence: nat, tail: seq<nat>) returns (bytes: array<nat>)
      requires |tail| == 8 && sequence <= SEQUENCE_MAX
      ensures bytes[..] == BytesOf(Clock(ms, sequence), tail)
    {
      hide LowByte;
      bytes := new nat[16](i requires 0 <= i < 16 => if i < 8 then 0 else tail[i - 8]);
      bytes[0] := LowByte(ms, 0x100_0000_0000);
      bytes[1] := LowByte(ms, 0x1_0000_0000);
      bytes[2] := LowByte(ms, 0x100_0000);
      bytes[3] := LowByte(ms, 0x1_0000);
      bytes[4] := LowByte(ms, 0x100);
      bytes[5] := LowByte(ms, 1);
      // The bits joined are apart, so or-ing them adds them.
      bytes[6] := 0x70 + sequence / 256;
      bytes[7] := sequence % 256;
      bytes[8] := 0x80 + bytes[8] % 64;
    }
  }

  // ----- what every run of it gives

  lemma HexOfTwo(a: nat, b: nat)
    ensures HexOf([a, b]) == Hex(a, 2) + Hex(b, 2)
  {
  }

  lemma HexOfFour(a: nat, b: nat, c: nat, d: nat)
    ensures HexOf([a, b, c, d]) == Hex(a, 2) + Hex(b, 2) + Hex(c, 2) + Hex(d, 2)
  {
    hide Hex;
    HexOfTwo(c, d);
    assert [a, b, c, d][1..] == [b, c, d] && [b, c, d][1..] == [c, d];
  }

  /** Two bytes of a number below 2^16. */
  lemma LowPart(n: nat)
    requires n < 0x1_0000
    ensures Hex(n, 4) == HexOf([n / 0x100, n % 0x100])
  {
    HexSplits(n, 2);
    HexOfTwo(n / 0x100, n % 0x100);
  }

  /** Four bytes of a number below 2^32. */
  lemma HighPart(n: nat)
    requires n < 0x1_0000_0000
    ensures Hex(n, 8) == HexOf([n / 0x100_0000, n / 0x1_0000 % 0x100, n / 0x100 % 0x100, n % 0x100])
  {
    HexSplits(n, 6);
    HexSplits(n / 0x100, 4);
    HexSplits(n / 0x100 / 0x100, 2);
    assert n / 0x100 / 0x100 == n / 0x1_0000 && n / 0x1_0000 / 0x100 == n / 0x100_0000;
    hide Hex;
    HexOfFour(n / 0x100_0000, n / 0x1_0000 % 0x100, n / 0x100 % 0x100, n % 0x100);
  }

  /** The version, above the top of the sequence. */
  lemma VersionPart(sequence: nat)
    requires sequence <= SEQUENCE_MAX
    ensures "7" + Hex(sequence, 3) == HexOf([0x70 + sequence / 256, sequence % 256])
  {
    var top := sequence / 256;
    assert (0x70 + top) % 16 == top && (0x70 + top) / 16 == 7;
    assert Hex(7, 1) == Hex(0, 0) + [HexChar(7)];
    assert Hex(0x70 + top, 2) == Hex(7, 1) + [HexChar(top)];
    assert Hex(top, 1) == Hex(0, 0) + [HexChar(top)];
    HexSplits(sequence, 1);
    hide Hex;
    HexOfTwo(0x70 + top, sequence % 256);
  }

  /** Milliseconds of 48 bits lose none of them. */
  lemma MillisecondBytes(ms: nat)
    requires ms < TOO_LATE
    ensures var n := ms / 0x1_0000;
            && LowByte(ms, 0x100_0000_0000) == n / 0x100_0000 && LowByte(ms, 0x1_0000_0000) == n / 0x1_0000 % 0x100
            && LowByte(ms, 0x100_0000) == n / 0x100 % 0x100 && LowByte(ms, 0x1_0000) == n % 0x100
            && LowByte(ms, 0x100) == ms % 0x1_0000 / 0x100 && LowByte(ms, 1) == ms % 0x1_0000 % 0x100
  {
    Shifts(ms);
  }

  lemma Shifts(ms: nat)
    ensures var n := ms / 0x1_0000;
            ms / 0x100_0000_0000 == n / 0x100_0000 && ms / 0x1_0000_0000 == n / 0x1_0000 && ms / 0x100_0000 == n / 0x100
    ensures ms / 0x100 % 0x100 == ms % 0x1_0000 / 0x100 && ms % 0x100 == ms % 0x1_0000 % 0x100
  {
    var n, low := ms / 0x1_0000, ms % 0x1_0000;
    assert ms == 0x1_0000 * n + low;
    LowShift(n, low);
    HighShift(ms);
  }

  lemma LowShift(n: nat, low: nat)
    requires low < 0x1_0000
    ensures (0x1_0000 * n + low) / 0x100 % 0x100 == low / 0x100 && (0x1_0000 * n + low) % 0x100 == low % 0x100
  {
    assert (0x1_0000 * n + low) / 0x100 == 0x100 * n + low / 0x100;
  }

  lemma HighShift(ms: nat)
    ensures ms / 0x1_0000 / 0x100 == ms / 0x100_0000 && ms / 0x1_0000 / 0x1_0000 == ms / 0x1_0000_0000
    ensures ms / 0x1_0000 / 0x100_0000 == ms / 0x100_0000_0000
  {
  }

  /** **The bytes written are the layout's**, for milliseconds of 48 bits. */
  lemma Layout(clock: Clock, tail: seq<nat>)
    requires |tail| == 8 && 0 <= clock.lastMs < TOO_LATE && clock.sequence <= SEQUENCE_MAX
    ensures TextOf(BytesOf(clock, tail)) == Uuid7(clock.lastMs, clock.sequence, tail)
  {
    hide Hex, HexOf, LowByte;
    var b := BytesOf(clock, tail);
    var ms := clock.lastMs;
    MillisecondBytes(ms);
    HighPart(ms / 0x1_0000);
    LowPart(ms % 0x1_0000);
    VersionPart(clock.sequence);
    HexOfTwo(0x80 + tail[0] % 64, tail[1]);
    var n := ms / 0x1_0000;
    assert b[..4] == [n / 0x100_0000, n / 0x1_0000 % 0x100, n / 0x100 % 0x100, n % 0x100];
    assert b[4..6] == [ms % 0x1_0000 / 0x100, ms % 0x1_0000 % 0x100];
    assert b[6..8] == [0x70 + clock.sequence / 256, clock.sequence % 256];
    assert b[8..10] == [0x80 + tail[0] % 64, tail[1]];
    assert b[10..] == tail[2..];
    TextJoins(Hex(n, 8), Hex(ms % 0x1_0000, 4), Hex(clock.sequence, 3), Hex(0x80 + tail[0] % 64, 2) + Hex(tail[1], 2),
              HexOf(tail[2..]));
  }

  lemma TextJoins(high: string, low: string, sequence: string, variant: string, rest: string)
    ensures high + "-" + low + "-" + ("7" + sequence) + "-" + variant + "-" + rest ==
            Joined(high, low, sequence, variant + "-" + rest)
  {
  }

  lemma {:induction false} HexFitsBelow(n: nat, k: nat, bound: nat)
    requires n < bound && HexFits(bound - 1, k)
    ensures HexFits(n, k)
    decreases k
  {
    if k > 0 { HexFitsBelow(n / 16, k - 1, (bound - 1) / 16 + 1); }
  }

  lemma BitsFit(ms: nat, sequence: nat)
    requires ms < TOO_LATE && sequence <= SEQUENCE_MAX
    ensures HexFits(ms / 0x1_0000, 8) && HexFits(ms % 0x1_0000, 4) && HexFits(sequence, 3)
  {
  }

  /** **Later is greater as text**, whatever the random tails. */
  lemma TextOrder(a: Clock, b: Clock, tailA: seq<nat>, tailB: seq<nat>)
    requires Before(a, b) && 0 <= a.lastMs && b.lastMs < TOO_LATE && a.sequence <= SEQUENCE_MAX &&
             b.sequence <= SEQUENCE_MAX
    requires |tailA| == 8 && |tailB| == 8
    ensures Less(Uuid7(a.lastMs, a.sequence, tailA), Uuid7(b.lastMs, b.sequence, tailB))
  {
    BitsFit(a.lastMs, a.sequence);
    BitsFit(b.lastMs, b.sequence);
    if a.lastMs < b.lastMs { SplitOrder(a.lastMs, b.lastMs); }
    hide Hex, HexOf, HexFits, Less, Joined, Ending;
    if a.lastMs / 0x1_0000 < b.lastMs / 0x1_0000 {
      HexLess(a.lastMs / 0x1_0000, b.lastMs / 0x1_0000, 8);
    } else if a.lastMs % 0x1_0000 < b.lastMs % 0x1_0000 {
      HexLess(a.lastMs % 0x1_0000, b.lastMs % 0x1_0000, 4);
    } else {
      HexLess(a.sequence, b.sequence, 3);
    }
    JoinedOrder(Hex(a.lastMs / 0x1_0000, 8), Hex(a.lastMs % 0x1_0000, 4), Hex(a.sequence, 3), Ending(tailA),
                Hex(b.lastMs / 0x1_0000, 8), Hex(b.lastMs % 0x1_0000, 4), Hex(b.sequence, 3), Ending(tailB));
  }

  lemma SplitOrder(x: nat, y: nat)
    requires x < y
    ensures x / 0x1_0000 < y / 0x1_0000 || (x / 0x1_0000 == y / 0x1_0000 && x % 0x1_0000 < y % 0x1_0000)
  {
  }

  /** The first part to differ decides. */
  lemma JoinedOrder(high: string, low: string, sequence: string, ending: string,
                    high': string, low': string, sequence': string, ending': string)
    requires |high| == |high'| && |low| == |low'| && |sequence| == |sequence'|
    requires Less(high, high') || (high == high' && (Less(low, low') || (low == low' && Less(sequence, sequence'))))
    ensures Less(Joined(high, low, sequence, ending), Joined(high', low', sequence', ending'))
  {
    hide Less;
    var end, end' := "-" + ending, "-" + ending';
    var third, third' := "-7" + (sequence + end), "-7" + (sequence' + end');
    var second, second' := "-" + (low + third), "-" + (low' + third');
    if Less(high, high') {
      LessByHead(high, high', second, second');
    } else {
      LessAfterPrefix(high, second, second');
      LessAfterPrefix("-", low + third, low' + third');
      if Less(low, low') {
        LessByHead(low, low', third, third');
      } else {
        LessAfterPrefix(low, third, third');
        LessAfterPrefix("-7", sequence + end, sequence' + end');
        LessByHead(sequence, sequence', end, end');
      }
    }
  }

  /** Minting moves strictly forward, and never before the clock read. */
  lemma TickForward(clock: Clock, now: int)
    requires clock.sequence <= SEQUENCE_MAX
    ensures Before(clock, Tick(clock, now)) && now <= Tick(clock, now).lastMs &&
            Tick(clock, now).sequence <= SEQUENCE_MAX
  {
  }

  /** The clock as one number: 4096 to the millisecond. */
  function Count(clock: Clock): int {
    clock.lastMs * (SEQUENCE_MAX + 1) + clock.sequence
  }

  /** **A mint counts one on, unless the reading is ahead**: then it starts at the reading. */
  lemma TickCounts(clock: Clock, now: int)
    requires clock.sequence <= SEQUENCE_MAX
    ensures Tick(clock, now).sequence <= SEQUENCE_MAX
    ensures Count(Tick(clock, now)) ==
            if now > clock.lastMs then now * (SEQUENCE_MAX + 1) else Count(clock) + 1
  {
  }

  /** **A reading repeated keeps its millisecond until the sequence runs out**, and each mint takes the next number. */
  lemma {:induction false} StalledKeepsMs(clock: Clock, readings: seq<int>)
    requires forall i :: 0 <= i < |readings| ==> readings[i] <= clock.lastMs
    requires clock.sequence + |readings| <= SEQUENCE_MAX
    ensures Ticks(clock, readings) == Clock(clock.lastMs, clock.sequence + |readings|)
    decreases |readings|
  {
    if readings != [] { StalledKeepsMs(clock, readings[..|readings| - 1]); }
  }

  /** **The clock runs ahead of its readings by one millisecond in 4096 mints at most.** */
  lemma {:induction false} RunsLittleAhead(readings: seq<int>, latest: int)
    requires latest >= 0 && forall i :: 0 <= i < |readings| ==> readings[i] <= latest
    ensures Ticks(FRESH, readings).sequence <= SEQUENCE_MAX
    ensures Ticks(FRESH, readings).lastMs <= latest + |readings| / (SEQUENCE_MAX + 1)
    ensures Count(Ticks(FRESH, readings)) <= latest * (SEQUENCE_MAX + 1) + |readings|
    decreases |readings|
  {
    if readings != [] {
      var init := readings[..|readings| - 1];
      RunsLittleAhead(init, latest);
      TickCounts(Ticks(FRESH, init), readings[|readings| - 1]);
    }
  }

  /** `readings` in the order they were read. */
  lemma {:induction false} TicksForward(readings: seq<int>, i: nat, j: nat)
    requires i < j <= |readings|
    ensures Before(Ticks(FRESH, readings[..i]), Ticks(FRESH, readings[..j]))
    ensures Ticks(FRESH, readings[..j]).sequence <= SEQUENCE_MAX && Ticks(FRESH, readings[..i]).sequence <= SEQUENCE_MAX
    ensures readings[j - 1] <= Ticks(FRESH, readings[..j]).lastMs
    decreases j
  {
    assert readings[..j][..j - 1] == readings[..j - 1];
    if i < j - 1 {
      TicksForward(readings, i, j - 1);
    } else if j - 1 > 0 {
      TicksForward(readings, j - 2, j - 1);
    }
    TickForward(Ticks(FRESH, readings[..j - 1]), readings[j - 1]);
  }

  /** The id minted at the `i`-th reading. */
  function Minted(readings: seq<int>, tails: seq<seq<nat>>, i: nat): string
    requires i < |readings| == |tails| && forall k :: 0 <= k < |tails| ==> |tails[k]| == 8
    requires Ticks(FRESH, readings[..i + 1]).sequence <= SEQUENCE_MAX
  {
    TextOf(BytesOf(Ticks(FRESH, readings[..i + 1]), tails[i]))
  }

  // ----- the order of what is written

  /** What an id keeps of its clock: the low 48 bits, and of the moment before any clock is read a single byte. */
  function Written(clock: Clock): (w: Clock)
    requires clock.lastMs >= -1
    ensures 0 <= w.lastMs < TOO_LATE && w.sequence == clock.sequence
  {
    Clock(if clock.lastMs < 0 then 0xff else clock.lastMs % TOO_LATE, clock.sequence)
  }

  /** A number and its low 48 bits have the same six low bytes. */
  lemma WrapsByte(ms: nat)
    ensures ms / 0x100_0000_0000 % 0x100 == ms % TOO_LATE / 0x100_0000_0000 % 0x100
    ensures ms / 0x1_0000_0000 % 0x100 == ms % TOO_LATE / 0x1_0000_0000 % 0x100
    ensures ms / 0x100_0000 % 0x100 == ms % TOO_LATE / 0x100_0000 % 0x100
    ensures ms / 0x1_0000 % 0x100 == ms % TOO_LATE / 0x1_0000 % 0x100
    ensures ms / 0x100 % 0x100 == ms % TOO_LATE / 0x100 % 0x100
    ensures ms % 0x100 == ms % TOO_LATE % 0x100
  {
    var q, f := ms / TOO_LATE, ms % TOO_LATE;
    assert ms == TOO_LATE * q + f;
    WholeAbove40(q, f);
    WholeAbove32(q, f);
    WholeAbove24(q, f);
    WholeAbove16(q, f);
    WholeAbove8(q, f);
    LowByteOf(q, f / 0x100_0000_0000);
    LowByteOf(0x100 * q, f / 0x1_0000_0000);
    LowByteOf(0x1_0000 * q, f / 0x100_0000);
    LowByteOf(0x100_0000 * q, f / 0x1_0000);
    LowByteOf(0x1_0000_0000 * q, f / 0x100);
    LowByteOf(0x100_0000_0000 * q, f);
  }

  lemma LowByteOf(k: nat, x: nat)
    ensures (0x100 * k + x) % 0x100 == x % 0x100
  {
  }

  lemma WholeAbove40(q: nat, f: nat)
    ensures (TOO_LATE * q + f) / 0x100_0000_0000 == 0x100 * q + f / 0x100_0000_0000
  {
  }

  lemma WholeAbove32(q: nat, f: nat)
    ensures (TOO_LATE * q + f) / 0x1_0000_0000 == 0x100 * (0x100 * q) + f / 0x1_0000_0000
  {
  }

  lemma WholeAbove24(q: nat, f: nat)
    ensures (TOO_LATE * q + f) / 0x100_0000 == 0x100 * (0x1_0000 * q) + f / 0x100_0000
  {
  }

  lemma WholeAbove16(q: nat, f: nat)
    ensures (TOO_LATE * q + f) / 0x1_0000 == 0x100 * (0x100_0000 * q) + f / 0x1_0000
  {
  }

  lemma WholeAbove8(q: nat, f: nat)
    ensures (TOO_LATE * q + f) / 0x100 == 0x100 * (0x1_0000_0000 * q) + f / 0x100
  {
  }

  lemma BytesOfWritten(clock: Clock, tail: seq<nat>)
    requires |tail| == 8 && clock.lastMs >= -1 && clock.sequence <= SEQUENCE_MAX
    ensures BytesOf(clock, tail) == BytesOf(Written(clock), tail)
  {
    if clock.lastMs >= 0 { WrapsByte(clock.lastMs); }
  }

  /** **What is written decides the order**: exactly so, for any clocks, before 1970 and past 2^48 included. */
  lemma OrderIsOfWritten(a: Clock, b: Clock, tailA: seq<nat>, tailB: seq<nat>)
    requires |tailA| == 8 && |tailB| == 8 && a.lastMs >= -1 && b.lastMs >= -1
    requires a.sequence <= SEQUENCE_MAX && b.sequence <= SEQUENCE_MAX && Written(a) != Written(b)
    ensures Less(TextOf(BytesOf(a, tailA)), TextOf(BytesOf(b, tailB))) <==> Before(Written(a), Written(b))
  {
    BytesOfWritten(a, tailA);
    BytesOfWritten(b, tailB);
    Layout(Written(a), tailA);
    Layout(Written(b), tailB);
    var textA, textB := TextOf(BytesOf(a, tailA)), TextOf(BytesOf(b, tailB));
    hide BytesOf, TextOf, Uuid7, Written, Less;
    if Before(Written(a), Written(b)) {
      TextOrder(Written(a), Written(b), tailA, tailB);
    } else {
      TextOrder(Written(b), Written(a), tailB, tailA);
      LessIrreflexive(textA);
      if Less(textA, textB) { LessTransitive(textA, textB, textA); }
    }
  }

  lemma {:induction false} NeverBelowMinusOne(readings: seq<int>)
    ensures Ticks(FRESH, readings).lastMs >= -1
  {
    if readings != [] { NeverBelowMinusOne(readings[..|readings| - 1]); }
  }

  /**
   * **Of two ids of a run whose texts differ before the tail, the first is the
   * lesser exactly when what it wrote comes before.**
   */
  lemma RunOrder(readings: seq<int>, tails: seq<seq<nat>>, i: nat, j: nat)
    requires i < j < |readings| == |tails| && forall k :: 0 <= k < |tails| ==> |tails[k]| == 8
    ensures Ticks(FRESH, readings[..i + 1]).lastMs >= -1 && Ticks(FRESH, readings[..j + 1]).lastMs >= -1
    ensures Ticks(FRESH, readings[..i + 1]).sequence <= SEQUENCE_MAX &&
            Ticks(FRESH, readings[..j + 1]).sequence <= SEQUENCE_MAX
    ensures var a, b := Written(Ticks(FRESH, readings[..i + 1])), Written(Ticks(FRESH, readings[..j + 1]));
            a != b ==> (Less(Minted(readings, tails, i), Minted(readings, tails, j)) <==> Before(a, b))
  {
    hide Ticks, Tick, BytesOf, TextOf, Less, Written;
    TicksForward(readings, i + 1, j + 1);
    NeverBelowMinusOne(readings[..i + 1]);
    NeverBelowMinusOne(readings[..j + 1]);
    var a, b := Ticks(FRESH, readings[..i + 1]), Ticks(FRESH, readings[..j + 1]);
    if Written(a) != Written(b) { OrderIsOfWritten(a, b, tails[i], tails[j]); }
  }

  /**
   * **Ids are strictly increasing as strings**, for every clock: stalled,
   * repeated, going backwards, more than 4096 in a millisecond; whatever the
   * random tails, once an id is stamped at the epoch or later, while the
   * milliseconds written stay below 2^48. None is stamped before the clock
   * it was minted at.
   */
  lemma StrictlyIncreasing(readings: seq<int>, tails: seq<seq<nat>>, i: nat, j: nat)
    requires i < j < |readings| == |tails| && forall k :: 0 <= k < |tails| ==> |tails[k]| == 8
    requires 0 <= Ticks(FRESH, readings[..i + 1]).lastMs && Ticks(FRESH, readings[..j + 1]).lastMs < TOO_LATE
    ensures Ticks(FRESH, readings[..i + 1]).sequence <= SEQUENCE_MAX &&
            Ticks(FRESH, readings[..j + 1]).sequence <= SEQUENCE_MAX
    ensures Less(Minted(readings, tails, i), Minted(readings, tails, j))
    ensures readings[i] <= Ticks(FRESH, readings[..i + 1]).lastMs &&
            readings[j] <= Ticks(FRESH, readings[..j + 1]).lastMs
  {
    hide Ticks, Tick, Uuid7, BytesOf, TextOf, Less;
    TicksForward(readings, i + 1, j + 1);
    TicksForward(readings, i, i + 1);
    var a, b := Ticks(FRESH, readings[..i + 1]), Ticks(FRESH, readings[..j + 1]);
    Layout(a, tails[i]);
    Layout(b, tails[j]);
    TextOrder(a, b, tails[i], tails[j]);
  }

  /**
   * A first reading before 1970 is stamped as the last byte of the moment before
   * it, and the next reading sorts below.
   */
  lemma BeforeTheEpoch(tails: seq<seq<nat>>)
    requires |tails| == 2 && |tails[0]| == 8 && |tails[1]| == 8
    ensures var readings := [-5, 5];
            Ticks(FRESH, readings[..1]) == Clock(-1, 1) && Ticks(FRESH, readings[..2]) == Clock(5, 0) &&
            Less(Minted(readings, tails, 1), Minted(readings, tails, 0))
  {
    var readings := [-5, 5];
    assert readings[..1] == [-5] && readings[..1][..0] == [] && readings[..2] == readings && readings[..2][..1] == [-5];
    assert Ticks(FRESH, readings[..1]) == Tick(Ticks(FRESH, []), -5);
    assert Ticks(FRESH, readings[..2]) == Tick(Ticks(FRESH, [-5]), 5);
    OrderIsOfWritten(Clock(5, 0), Clock(-1, 1), tails[1], tails[0]);
  }

  /**
   * **Past 48 bits the text starts over, and the order with it**: of two ids
   * less than 2^48 milliseconds apart, one on each side, the later is always
   * the lesser, whatever the sequences and tails.
   */
  lemma PastTheEndStartsOver(a: Clock, b: Clock, tailA: seq<nat>, tailB: seq<nat>)
    requires |tailA| == 8 && |tailB| == 8 && a.sequence <= SEQUENCE_MAX && b.sequence <= SEQUENCE_MAX
    requires 0 <= a.lastMs < TOO_LATE <= b.lastMs < a.lastMs + TOO_LATE
    ensures Before(a, b) && Less(TextOf(BytesOf(b, tailB)), TextOf(BytesOf(a, tailA)))
  {
    assert b.lastMs % TOO_LATE == b.lastMs - TOO_LATE;
    hide BytesOf, TextOf, Less;
    OrderIsOfWritten(b, a, tailB, tailA);
  }

  // ----- reading an id

  /** `mintedAt`: the first twelve digits, the hyphens dropped. */
  function MintedAt(id: string): int {
    ParseHex(First(Digits(id), 12))
  }

  function Digits(id: string): string {
    if id == "" then "" else (if id[0] == '-' then "" else [id[0]]) + Digits(id[1..])
  }

  function First(s: string, n: nat): string {
    if |s| <= n then s else s[..n]
  }

  lemma {:induction false} DigitsOfHex(s: string, rest: string)
    requires forall i :: 0 <= i < |s| ==> IsHex(s[i])
    ensures Digits(s + rest) == s + Digits(rest)
  {
    if s == "" {
      assert s + rest == rest;
    } else {
      assert (s + rest)[1..] == s[1..] + rest;
      DigitsOfHex(s[1..], rest);
    }
  }

  /** **The milliseconds written are read back.** */
  lemma MintedAtReads(ms: nat, sequence: nat, tail: seq<nat>)
    requires |tail| == 8 && ms < TOO_LATE && sequence <= SEQUENCE_MAX
    ensures MintedAt(Uuid7(ms, sequence, tail)) == ms
  {
    BitsFit(ms, sequence);
    HexJoins(ms);
    hide Hex, HexOf, HexFits, Ending;
    var high, low := Hex(ms / 0x1_0000, 8), Hex(ms % 0x1_0000, 4);
    var rest := "-7" + (Hex(sequence, 3) + ("-" + Ending(tail)));
    assert Uuid7(ms, sequence, tail) == high + ("-" + (low + rest));
    hide Uuid7, Joined, ParseHex;
    DigitsOfHex(high, "-" + (low + rest));
    assert ("-" + (low + rest))[1..] == low + rest;
    assert Digits("-" + (low + rest)) == "" + Digits(low + rest) == Digits(low + rest);
    DigitsOfHex(low, rest);
    hide Digits;
    assert First(high + (low + Digits(rest)), 12) == high + low;
  }

  lemma HexJoins(ms: nat)
    requires ms < TOO_LATE
    ensures ParseHex(Hex(ms / 0x1_0000, 8) + Hex(ms % 0x1_0000, 4)) == ms
  {
    HexSplits(ms, 10);
    HexSplits(ms / 0x100, 8);
    HexSplits(ms % 0x1_0000, 2);
    var third, last := Hex(ms / 0x100 % 0x100, 2), Hex(ms % 0x100, 2);
    assert ms / 0x100 / 0x100 == ms / 0x1_0000 && ms % 0x1_0000 / 0x100 == ms / 0x100 % 0x100 &&
           ms % 0x1_0000 % 0x100 == ms % 0x100;
    hide Hex;
    assert Hex(ms / 0x1_0000, 8) + third + last == Hex(ms / 0x1_0000, 8) + (third + last);
    assert HexFits(TOO_LATE - 1, 12);
    HexFitsBelow(ms, 12, TOO_LATE);
    ParseOfHex(ms, 12);
  }

  /** What `isId` accepts. */
  predicate IsId(s: string) {
    && |s| == 36
    && s[8] == s[13] == s[18] == s[23] == '-' && s[14] == '7' && s[19] in "89ab"
    && forall i :: 0 <= i < 36 && i != 8 && i != 13 && i != 18 && i != 23 ==> IsHex(s[i])
  }

  /** Every id minted is one. */
  lemma MintedIsId(ms: nat, sequence: nat, tail: seq<nat>)
    requires |tail| == 8 && ms < TOO_LATE && sequence <= SEQUENCE_MAX && forall i :: 0 <= i < 8 ==> tail[i] < 256
    ensures IsId(Uuid7(ms, sequence, tail))
  {
    VariantDigit(0x80 + tail[0] % 64);
    hide Hex;
  }

  lemma VariantDigit(b: nat)
    requires 0x80 <= b < 0xc0
    ensures Hex(b, 2)[0] in "89ab"
  {
  }
}
