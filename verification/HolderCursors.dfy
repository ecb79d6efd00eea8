/** The text of a page's cursor: the length of the holder's type, the type, then the id, with nothing to escape. */
module HolderCursors {
  import opened Std
  import opened Holders

  predicate IsDigit(c: char) {
    '0' <= c <= '9'
  }

  function Digit(d: nat): char
    requires d < 10
  {
    ('0' as int + d) as char
  }

  function Decimal(n: nat): (s: string)
    ensures s != "" && (|s| > 1 ==> s[0] != '0') && forall i :: 0 <= i < |s| ==> IsDigit(s[i])
  {
    if n < 10 then [Digit(n)] else Decimal(n / 10) + [Digit(n % 10)]
  }

  function ParseDecimal(s: string): nat
    requires forall i :: 0 <= i < |s| ==> IsDigit(s[i])
  {
    if s == "" then 0
    else
      assert IsDigit(s[|s| - 1]);
      10 * ParseDecimal(s[..|s| - 1]) + (s[|s| - 1] as int - '0' as int)
  }

  function CursorOf(holder: Holder): string {
    Decimal(|holder.kind|) + ":" + holder.kind + holder.id
  }

  /** How many digits a text starts with. */
  function Leading(s: string): (n: nat)
    ensures n <= |s| && forall i :: 0 <= i < n ==> IsDigit(s[i])
    ensures n < |s| ==> !IsDigit(s[n])
  {
    if s != "" && IsDigit(s[0]) then 1 + Leading(s[1..]) else 0
  }

  /** A number of at most nine digits and no leading zero, a colon, and that many characters at least. */
  function ReadCursor(cursor: string): Option<Holder> {
    var n := Leading(cursor);
    if n == 0 || n > 9 || (n > 1 && cursor[0] == '0') || n == |cursor| || cursor[n] != ':' then None
    else
      var length := ParseDecimal(cursor[..n]);
      if n + 1 + length > |cursor| then None
      else Some(Holder(cursor[n + 1..n + 1 + length], cursor[n + 1 + length..]))
  }

  lemma {:induction false} ParseOfDecimal(n: nat)
    ensures ParseDecimal(Decimal(n)) == n
  {
    if n >= 10 {
      ParseOfDecimal(n / 10);
      assert Decimal(n)[..|Decimal(n)| - 1] == Decimal(n / 10);
    }
  }

  lemma {:induction false} DecimalOfParse(s: string)
    requires s != "" && (|s| > 1 ==> s[0] != '0') && forall i :: 0 <= i < |s| ==> IsDigit(s[i])
    ensures Decimal(ParseDecimal(s)) == s
    ensures s[0] != '0' ==> ParseDecimal(s) > 0
  {
    var head := s[..|s| - 1];
    assert s == head + [s[|s| - 1]];
    if head != "" { DecimalOfParse(head); }
  }

  function Pow10(k: nat): nat {
    if k == 0 then 1 else 10 * Pow10(k - 1)
  }

  lemma {:induction false} DecimalLength(n: nat, k: nat)
    requires k >= 1
    ensures |Decimal(n)| <= k <==> n < Pow10(k)
    decreases k
  {
    if n >= 10 {
      if k > 1 {
        DecimalLength(n / 10, k - 1);
      } else {
        assert Decimal(n / 10) != "";
        assert Pow10(1) == 10 * Pow10(0);
      }
    } else {
      TenAtLeast(k);
    }
  }

  lemma {:induction false} TenAtLeast(k: nat)
    requires k >= 1
    ensures Pow10(k) >= 10
  {
    if k > 1 { TenAtLeast(k - 1); } else { assert Pow10(1) == 10 * Pow10(0); }
  }

  lemma {:induction false} LeadingDigits(s: string, rest: string)
    requires forall i :: 0 <= i < |s| ==> IsDigit(s[i])
    requires rest != "" && !IsDigit(rest[0])
    ensures Leading(s + rest) == |s|
  {
    if s == "" {
      assert s + rest == rest;
    } else {
      assert (s + rest)[1..] == s[1..] + rest;
      LeadingDigits(s[1..], rest);
    }
  }

  /**
   * **A cursor reads back as the holder it follows**, whatever its id holds,
   * exactly while its type is below a billion characters.
   */
  lemma ReadsBack(holder: Holder)
    ensures ReadCursor(CursorOf(holder)) == if |holder.kind| < 1_000_000_000 then Some(holder) else None
  {
    var head, text := Decimal(|holder.kind|), CursorOf(holder);
    assert text == head + (":" + holder.kind + holder.id);
    LeadingDigits(head, ":" + holder.kind + holder.id);
    DecimalLength(|holder.kind|, 9);
    assert Pow10(9) == 1_000_000_000;
    ParseOfDecimal(|holder.kind|);
    hide Decimal, ParseDecimal, Leading;
    assert text[..|head|] == head;
    var n := |head|;
    assert text[n] == ':' && text[0] == head[0];
    assert text[n + 1..n + 1 + |holder.kind|] == holder.kind && text[n + 1 + |holder.kind|..] == holder.id;
  }

  /** **And any text that reads as a cursor is the one minted for that holder**: no other is taken for it. */
  lemma PrintsBack(cursor: string, holder: Holder)
    requires ReadCursor(cursor) == Some(holder)
    ensures CursorOf(holder) == cursor
  {
    var n := Leading(cursor);
    DecimalOfParse(cursor[..n]);
    hide Decimal, ParseDecimal, Leading;
    assert cursor == cursor[..n] + ":" + cursor[n + 1..];
  }

  /** As it is written in a page. */
  lemma AsWritten()
    ensures CursorOf(Holder("staff", "s1")) == "5:staffs1"
  {
  }
}
