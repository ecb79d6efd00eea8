/** Base32 without padding (section 6 of RFC 4648), over an accumulator that wraps at 32 bits. */
module Base32 {
  import opened Std

  // ----- words

  /** `v >>> n` */
  function Shr(v: nat, n: nat): nat {
    if n == 0 then v else Shr(v / 2, n - 1)
  }

  /** `v << n`, before it wraps. */
  function Shl(v: nat, n: nat): nat {
    if n == 0 then v else 2 * Shl(v, n - 1)
  }

  /** The `m` low bits of `v`: a mask, or what a word of `m` bits keeps. */
  function Low(v: nat, m: nat): nat
    decreases m
  {
    if m == 0 then 0 else 2 * Low(v / 2, m - 1) + v % 2
  }

  predicate Fits(v: nat, m: nat)
    decreases m
  {
    if m == 0 then v == 0 else Fits(v / 2, m - 1)
  }

  // ----- bits

  type Bits = seq<bool>

  /** The `k` low bits of `v`, highest first. */
  function BitsOf(v: nat, k: nat): (b: Bits)
    ensures |b| == k
    decreases k
  {
    if k == 0 then [] else BitsOf(v / 2, k - 1) + [v % 2 == 1]
  }

  /** Numbers of `w` bits each, one after the other. */
  function Joined(values: seq<nat>, w: nat): (b: Bits)
    ensures |b| == w * |values|
    decreases |values|
  {
    if values == [] then [] else Joined(values[..|values| - 1], w) + BitsOf(values[|values| - 1], w)
  }

  function Zeros(k: nat): (b: Bits)
    ensures |b| == k
  {
    if k == 0 then [] else Zeros(k - 1) + [false]
  }

  /** A number of `j` bits shifted in below. */
  lemma {:induction false} ShiftIn(v: nat, k: nat, b: nat, j: nat)
    requires Fits(b, j)
    ensures BitsOf(Shl(v, j) + b, k + j) == BitsOf(v, k) + BitsOf(b, j)
    decreases j
  {
    if j == 0 {
      assert BitsOf(v, k) + [] == BitsOf(v, k);
    } else {
      ShiftIn(v, k, b / 2, j - 1);
      assert (Shl(v, j) + b) / 2 == Shl(v, j - 1) + b / 2 && (Shl(v, j) + b) % 2 == b % 2;
      assert BitsOf(v, k) + BitsOf(b / 2, j - 1) + [b % 2 == 1] == BitsOf(v, k) + BitsOf(b, j);
    }
  }

  /** The bits kept below a wrap are those it would have had without one. */
  lemma {:induction false} Wraps(v: nat, k: nat, m: nat)
    requires k <= m
    ensures BitsOf(Low(v, m), k) == BitsOf(v, k)
    decreases k
  {
    if k > 0 { Wraps(v / 2, k - 1, m - 1); }
  }

  /** The high bits, and the low ones below them. */
  lemma {:induction false} Splits(v: nat, a: nat, b: nat)
    ensures BitsOf(v, a + b) == BitsOf(Shr(v, b), a) + BitsOf(v, b)
    decreases b
  {
    if b == 0 {
      assert BitsOf(v, a) + [] == BitsOf(v, a);
    } else {
      Splits(v / 2, a, b - 1);
      assert BitsOf(Shr(v, b), a) + BitsOf(v / 2, b - 1) + [v % 2 == 1] == BitsOf(Shr(v, b), a) + BitsOf(v, b);
    }
  }

  lemma {:induction false} ZeroBits(k: nat)
    ensures BitsOf(0, k) == Zeros(k) && Fits(0, k)
  {
    if k > 0 { ZeroBits(k - 1); }
  }

  lemma {:induction false} LowFits(v: nat, m: nat)
    ensures Fits(Low(v, m), m)
    decreases m
  {
    if m > 0 { LowFits(v / 2, m - 1); }
  }

  lemma {:induction false} BitsTell(a: nat, b: nat, k: nat)
    requires Fits(a, k) && Fits(b, k) && BitsOf(a, k) == BitsOf(b, k)
    ensures a == b
    decreases k
  {
    if k > 0 {
      assert BitsOf(a, k)[..k - 1] == BitsOf(a / 2, k - 1) && BitsOf(b, k)[..k - 1] == BitsOf(b / 2, k - 1);
      assert BitsOf(a, k)[k - 1] == (a % 2 == 1) && BitsOf(b, k)[k - 1] == (b % 2 == 1);
      BitsTell(a / 2, b / 2, k - 1);
    }
  }

  ghost predicate AllFit(values: seq<nat>, w: nat) {
    forall i :: 0 <= i < |values| ==> Fits(values[i], w)
  }

  lemma {:induction false} JoinedTell(a: seq<nat>, b: seq<nat>, w: nat)
    requires |a| == |b| && AllFit(a, w) && AllFit(b, w) && Joined(a, w) == Joined(b, w)
    ensures a == b
    decreases |a|
  {
    if a != [] {
      var n := |a| - 1;
      var headA, headB := Joined(a[..n], w), Joined(b[..n], w);
      assert Joined(a, w)[..w * n] == headA && Joined(b, w)[..w * n] == headB;
      assert Joined(a, w)[w * n..] == BitsOf(a[n], w) && Joined(b, w)[w * n..] == BitsOf(b[n], w);
      JoinedTell(a[..n], b[..n], w);
      BitsTell(a[n], b[n], w);
      assert a == a[..n] + [a[n]] && b == b[..n] + [b[n]];
    }
  }

  lemma JoinOne(values: seq<nat>, v: nat, w: nat)
    ensures Joined(values + [v], w) == Joined(values, w) + BitsOf(v, w)
  {
  }

  // ----- the two loops

  /** The letters of these groups of five bits. */
  function Letters(groups: seq<nat>): (text: string)
    requires AllFit(groups, 5)
    ensures |text| == |groups|
  {
    seq(|groups|, i requires 0 <= i < |groups| => Letter(groups[i]))
  }

  /** The alphabet: `A` to `Z`, then `2` to `7`. */
  function Letter(group: nat): char
    requires Fits(group, 5)
  {
    BelowThirtyTwo(group);
    if group < 26 then ('A' as int + group) as char else ('2' as int + group - 26) as char
  }

  function IndexOf(c: char): Option<nat> {
    if 'A' <= c <= 'Z' then Some(c as int - 'A' as int)
    else if '2' <= c <= '7' then Some(c as int - '2' as int + 26)
    else None
  }

  lemma LetterIndex(c: char)
    ensures IndexOf(c).Some? ==> Fits(IndexOf(c).value, 5) && Letter(IndexOf(c).value) == c
  {
  }

  lemma IndexOfLetter(group: nat)
    requires Fits(group, 5)
    ensures IndexOf(Letter(group)) == Some(group)
  {
  }

  lemma BelowThirtyTwo(v: nat)
    requires Fits(v, 5)
    ensures v < 32
  {
  }

  lemma ByteFits(v: nat)
    requires v < 256
    ensures Fits(v, 8)
  {
  }

  ghost predicate IsText(text: string, groups: seq<nat>) {
    AllFit(groups, 5) && text == Letters(groups)
  }

  lemma TextGrows(text: string, groups: seq<nat>, group: nat)
    requires IsText(text, groups) && Fits(group, 5)
    ensures IsText(text + [Letter(group)], groups + [group])
  {
  }

  lemma TextTells(text: string, groups: seq<nat>, groups': seq<nat>)
    requires IsText(text, groups) && IsText(text, groups')
    ensures groups == groups'
  {
    forall i | 0 <= i < |text| ensures groups[i] == groups'[i] {
      assert text[i] == Letter(groups[i]) == Letter(groups'[i]);
      IndexOfLetter(groups[i]);
      IndexOfLetter(groups'[i]);
    }
  }

  /** The text is these bytes' bits in groups of five, the last filled with zeros. */
  ghost predicate Encodes(text: string, bytes: seq<nat>) {
    exists groups, pad :: IsText(text, groups) && Fills(groups, bytes, pad)
  }

  ghost predicate Fills(groups: seq<nat>, bytes: seq<nat>, pad: nat) {
    pad < 5 && Joined(groups, 5) == Joined(bytes, 8) + Zeros(pad)
  }

  /** The bytes are the whole ones among the text's bits. */
  ghost predicate Decodes(text: string, bytes: seq<nat>) {
    exists groups, rest :: IsText(text, groups) && Leaves(groups, bytes, rest)
  }

  ghost predicate Leaves(groups: seq<nat>, bytes: seq<nat>, rest: Bits) {
    AllFit(bytes, 8) && |rest| < 8 && Joined(groups, 5) == Joined(bytes, 8) + rest
  }

  /** A byte shifted in leaves the bits above it as they were, though the word wraps. */
  lemma TakeIn(value: nat, bits: nat, v: nat, w: nat)
    requires Fits(v, w) && bits + w <= 32
    ensures BitsOf(Low(Shl(value, w) + v, 32), bits + w) == BitsOf(value, bits) + BitsOf(v, w)
  {
    hide Low, Shl, BitsOf, Fits;
    Wraps(Shl(value, w) + v, bits + w, 32);
    ShiftIn(value, bits, v, w);
  }

  /** The top bits pending, given out. */
  lemma GiveOut(value: nat, bits: nat, w: nat)
    requires w <= bits
    ensures var out := Low(Shr(value, bits - w), w);
            Fits(out, w) && BitsOf(value, bits) == BitsOf(out, w) + BitsOf(value, bits - w)
  {
    hide Low, Shr, BitsOf, Fits;
    LowFits(Shr(value, bits - w), w);
    Wraps(Shr(value, bits - w), w, w);
    Splits(value, w, bits - w);
  }

  /** The last bits pending, filled with zeros. */
  lemma GiveLast(value: nat, bits: nat)
    requires bits < 5
    ensures var out := Low(Low(Shl(value, 5 - bits), 32), 5);
            Fits(out, 5) && BitsOf(out, 5) == BitsOf(value, bits) + Zeros(5 - bits)
  {
    hide Low, Shl, BitsOf, Fits, Zeros;
    LowFits(Low(Shl(value, 5 - bits), 32), 5);
    Wraps(Low(Shl(value, 5 - bits), 32), 5, 5);
    Wraps(Shl(value, 5 - bits), 5, 32);
    ZeroBits(5 - bits);
    ShiftIn(value, bits, 0, 5 - bits);
  }

  /** What the loops move from the pending bits to those given out. */
  lemma Moves(done: Bits, pending: Bits, out: Bits, left: Bits, all: Bits)
    requires done + pending == all && pending == out + left
    ensures done + out + left == all
  {
  }

  method ToBase32(bytes: seq<nat>) returns (out: string)
    requires forall i :: 0 <= i < |bytes| ==> bytes[i] < 256
    ensures Encodes(out, bytes)
  {
    hide Shl, Shr, Low, Fits, BitsOf, Zeros, Joined, IsText;
    var bits, value := 0, 0;
    out := "";
    ghost var groups: seq<nat> := [];
    NothingYet();
    for i := 0 to |bytes|
      invariant bits < 5 && IsText(out, groups)
      invariant Joined(groups, 5) + BitsOf(value, bits) == Joined(bytes[..i], 8)
    {
      ByteFits(bytes[i]);
      TakeIn(value, bits, bytes[i], 8);
      JoinOne(bytes[..i], bytes[i], 8);
      assert bytes[..i + 1] == bytes[..i] + [bytes[i]];
      assert Joined(groups, 5) + (BitsOf(value, bits) + BitsOf(bytes[i], 8)) == Joined(bytes[..i + 1], 8);
      value := Low(Shl(value, 8) + bytes[i], 32);
      bits := bits + 8;
      while bits >= 5
        invariant bits <= 12 && IsText(out, groups)
        invariant Joined(groups, 5) + BitsOf(value, bits) == Joined(bytes[..i + 1], 8)
      {
        GiveOut(value, bits, 5);
        ghost var group := Low(Shr(value, bits - 5), 5);
        Moves(Joined(groups, 5), BitsOf(value, bits), BitsOf(group, 5), BitsOf(value, bits - 5),
              Joined(bytes[..i + 1], 8));
        JoinOne(groups, group, 5);
        TextGrows(out, groups, group);
        groups := groups + [group];
        out := out + [Letter(Low(Shr(value, bits - 5), 5))];
        bits := bits - 5;
      }
    }
    assert bytes[..|bytes|] == bytes;
    ghost var pad := if bits > 0 then 5 - bits else 0;
    if bits > 0 {
      GiveLast(value, bits);
      ghost var group := Low(Low(Shl(value, 5 - bits), 32), 5);
      JoinOne(groups, group, 5);
      TextGrows(out, groups, group);
      assert Joined(groups, 5) + (BitsOf(value, bits) + Zeros(pad)) == Joined(bytes, 8) + Zeros(pad);
      groups := groups + [group];
      out := out + [Letter(Low(Low(Shl(value, 5 - bits), 32), 5))];
    } else {
      assert Joined(groups, 5) == Joined(groups, 5) + BitsOf(value, bits) == Joined(bytes, 8) + Zeros(pad);
    }
    assert Fills(groups, bytes, pad);
  }

  lemma NothingYet()
    ensures IsText("", []) && Joined([], 5) == [] && Joined([], 8) == [] && AllFit([], 8)
  {
  }

  /** The bytes, or the refusal of a character that is not of the alphabet. */
  method FromBase32(text: string) returns (out: Option<seq<nat>>)
    ensures out.None? <==> exists i :: 0 <= i < |text| && IndexOf(text[i]).None?
    ensures out.Some? ==> Decodes(text, out.value)
  {
    hide Shl, Shr, Low, Fits, BitsOf, Joined, IsText, IndexOf, AllFit;
    var bits, value := 0, 0;
    var bytes: seq<nat> := [];
    ghost var groups: seq<nat> := [];
    NothingYet();
    for i := 0 to |text|
      invariant bits < 8 && IsText(text[..i], groups) && AllFit(bytes, 8)
      invariant Joined(bytes, 8) + BitsOf(value, bits) == Joined(groups, 5)
      invariant forall j :: 0 <= j < i ==> IndexOf(text[j]).Some?
    {
      var index := IndexOf(text[i]);
      if index.None? { return None; }
      LetterIndex(text[i]);
      TakeIn(value, bits, index.value, 5);
      JoinOne(groups, index.value, 5);
      TextGrows(text[..i], groups, index.value);
      assert text[..i + 1] == text[..i] + [text[i]];
      assert Joined(bytes, 8) + (BitsOf(value, bits) + BitsOf(index.value, 5)) == Joined(groups + [index.value], 5);
      groups := groups + [index.value];
      value := Low(Shl(value, 5) + index.value, 32);
      bits := bits + 5;
      if bits >= 8 {
        GiveOut(value, bits, 8);
        var byte := Low(Shr(value, bits - 8), 8);
        Moves(Joined(bytes, 8), BitsOf(value, bits), BitsOf(byte, 8), BitsOf(value, bits - 8), Joined(groups, 5));
        JoinOne(bytes, byte, 8);
        FitsMore(bytes, byte, 8);
        bytes := bytes + [byte];
        bits := bits - 8;
      }
    }
    assert text[..|text|] == text;
    assert Leaves(groups, bytes, BitsOf(value, bits));
    out := Some(bytes);
  }

  lemma FitsMore(values: seq<nat>, v: nat, w: nat)
    requires AllFit(values, w) && Fits(v, w)
    ensures AllFit(values + [v], w)
  {
  }

  // ----- they undo each other

  /** **What a text decodes to is what it was encoded from.** */
  lemma DecodesWhatEncodes(text: string, bytes: seq<nat>, again: seq<nat>)
    requires Encodes(text, bytes) && Decodes(text, again) && AllFit(bytes, 8)
    ensures again == bytes
  {
    hide IsText, Joined, BitsOf, Zeros, Fits, AllFit;
    var groups, pad :| IsText(text, groups) && Fills(groups, bytes, pad);
    var groups', rest :| IsText(text, groups') && Leaves(groups', again, rest);
    TextTells(text, groups, groups');
    assert 8 * |bytes| + pad == 8 * |again| + |rest|;
    assert Joined(bytes, 8) == Joined(groups, 5)[..8 * |bytes|] == Joined(again, 8);
    JoinedTell(bytes, again, 8);
  }

  /** **`fromBase32(toBase32(b))` is `b`**, for every byte sequence, however often the accumulator wraps. */
  method RoundTrip(bytes: seq<nat>) returns (again: Option<seq<nat>>)
    requires forall i :: 0 <= i < |bytes| ==> bytes[i] < 256
    ensures again == Some(bytes)
  {
    var text := ToBase32(bytes);
    again := FromBase32(text);
    EncodedIsText(text, bytes);
    forall i | 0 <= i < |bytes| ensures Fits(bytes[i], 8) { ByteFits(bytes[i]); }
    DecodesWhatEncodes(text, bytes, again.value);
  }

  lemma EncodedIsText(text: string, bytes: seq<nat>)
    requires Encodes(text, bytes)
    ensures forall i :: 0 <= i < |text| ==> IndexOf(text[i]).Some?
  {
  }

  /** Five letters for every four bytes: as many as hold the bits, and no more. */
  lemma EncodedLength(text: string, bytes: seq<nat>)
    requires Encodes(text, bytes)
    ensures |text| == (8 * |bytes| + 4) / 5
  {
  }

  /** The alphabet of table 3 of RFC 4648, letter by letter. */
  lemma AlphabetIs(group: nat)
    requires Fits(group, 5)
    ensures group < 32 && Letter(group) == "ABCDEFGHIJKLMNOPQRSTUVWXYZ234567"[group]
  {
    BelowThirtyTwo(group);
  }
}
