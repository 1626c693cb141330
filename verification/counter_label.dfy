/** The counter under the wheel, "01/06" style: the 1-based position of the
    active period and the number of periods, each written in decimal and
    left-padded with '0' to two characters. Padding only ever adds
    characters, so a count of 100 or more is shown in full. */
module CounterLabel {

  predicate IsDigit(c: char)
  {
    '0' <= c <= '9'
  }

  predicate AllDigits(s: string)
  {
    forall k :: 0 <= k < |s| ==> IsDigit(s[k])
  }

  function DigitChar(d: nat): (c: char)
    requires d < 10
    ensures IsDigit(c)
  {
    ('0' as int + d) as char
  }

  function DigitValue(c: char): (d: nat)
    requires IsDigit(c)
    ensures d < 10 && DigitChar(d) == c
  {
    c as int - '0' as int
  }

  /** The decimal form of `n`, as a number's `toString()` writes it: digits
      only, no leading zero. */
  function Decimal(n: nat): (s: string)
    ensures |s| >= 1 && AllDigits(s)
    ensures n > 0 ==> s[0] != '0'
    ensures |s| == 1 <==> n < 10
    ensures |s| == 2 <==> 10 <= n < 100
    decreases n
  {
    if n < 10 then [DigitChar(n)] else Decimal(n / 10) + [DigitChar(n % 10)]
  }

  /** Reads a string of decimal digits back as a number; the inverse of
      `Decimal`, and blind to leading zeros. */
  function Parse(s: string): (v: nat)
    requires AllDigits(s)
    decreases |s|
  {
    if s == [] then 0 else Parse(s[..|s| - 1]) * 10 + DigitValue(s[|s| - 1])
  }

  /** `s.padStart(len, fill)` for a one-character fill: `fill` repeated in
      front of `s` until the length reaches `len`; a string already that long
      is returned as it is. */
  function PadStart(s: string, len: nat, fill: char): (r: string)
    ensures |r| == if |s| >= len then |s| else len
    ensures r[|r| - |s|..] == s
    ensures forall k :: 0 <= k < |r| - |s| ==> r[k] == fill
  {
    if |s| >= len then s else seq(len - |s|, _ => fill) + s
  }

  /** The counter text for the period at index `active` among `n`. While
      both numbers stay below 100 it is always five characters, `dd/dd`. */
  function Label(active: nat, n: nat): (r: string)
    ensures |r| >= 5
    ensures active + 1 < 100 && n < 100 ==> |r| == 5 && r[2] == '/'
  {
    var left := PadStart(Decimal(active + 1), 2, '0');
    var right := PadStart(Decimal(n), 2, '0');
    PaddedWidth(active + 1);
    PaddedWidth(n);
    JoinShape(left, right);
    left + "/" + right
  }

  /** A number padded to two places takes exactly two characters below
      100, and more from there on. */
  lemma PaddedWidth(m: nat)
    ensures |PadStart(Decimal(m), 2, '0')| >= 2
    ensures m < 100 ==> |PadStart(Decimal(m), 2, '0')| == 2
  {
  }

  /** Joining two strings of at least two characters with '/' puts the
      '/' right after the first. */
  lemma JoinShape(left: string, right: string)
    requires |left| >= 2 && |right| >= 2
    ensures |left + "/" + right| >= 5 && (left + "/" + right)[|left|] == '/'
  {
  }

  /** Reading a number's decimal form gives the number back. */
  lemma {:induction false} ParseDecimal(n: nat)
    ensures Parse(Decimal(n)) == n
    decreases n
  {
    if n >= 10 {
      ParseDecimal(n / 10);
      var s := Decimal(n);
      assert s[..|s| - 1] == Decimal(n / 10);
    }
  }

  /** A leading '0' does not change the value read. */
  lemma {:induction false} ParseLeadingZero(s: string)
    requires AllDigits(s)
    ensures AllDigits(['0'] + s) && Parse(['0'] + s) == Parse(s)
    decreases |s|
  {
    var z := ['0'] + s;
    if s != [] {
      assert z[..|z| - 1] == ['0'] + s[..|s| - 1];
      ParseLeadingZero(s[..|s| - 1]);
    }
  }

  /** Zero padding does not change the value read. */
  lemma {:induction false} ParsePadded(s: string, len: nat)
    requires AllDigits(s)
    ensures AllDigits(PadStart(s, len, '0'))
    ensures Parse(PadStart(s, len, '0')) == Parse(s)
    decreases len
  {
    var r := PadStart(s, len, '0');
    if |s| < len {
      assert r == ['0'] + PadStart(s, len - 1, '0');
      ParsePadded(s, len - 1);
      ParseLeadingZero(PadStart(s, len - 1, '0'));
    }
  }

  /** Two digit strings joined by '/' hold '/' only at the join. */
  lemma SlashJoin(left: string, right: string)
    requires AllDigits(left) && AllDigits(right)
    ensures var s := left + "/" + right;
      && s[|left|] == '/' && s[..|left|] == left && s[|left| + 1..] == right
      && forall x :: 0 <= x < |s| && x != |left| ==> s[x] != '/'
  {
  }

  /** `t` is one side of the counter for the number `m`: digits reading as
      `m`, exactly two characters below 100, and the plain decimal form from
      10 up, so a leading zero appears only in front of a single digit. */
  predicate SideReads(t: string, m: nat)
  {
    && |t| >= 2 && AllDigits(t) && Parse(t) == m
    && (m < 100 ==> |t| == 2)
    && (m >= 10 ==> t == Decimal(m))
  }

  /** `s` is the counter for index `active` among `n` with its only '/' at
      index `k`, the part before it reading as `active + 1` and the part
      after it as `n`. */
  predicate SplitsAt(s: string, k: int, active: nat, n: nat)
  {
    && 2 <= k <= |s| - 3 && s[k] == '/'
    && (forall x :: 0 <= x < |s| && x != k ==> s[x] != '/')
    && SideReads(s[..k], active + 1)
    && SideReads(s[k + 1..], n)
  }

  /** A number padded to two places with '0' is a side reading as it. */
  lemma PaddedSide(m: nat)
    ensures SideReads(PadStart(Decimal(m), 2, '0'), m)
  {
    ParsePadded(Decimal(m), 2);
    ParseDecimal(m);
  }

  /** Two sides joined by '/' split at the join. */
  lemma JoinSplits(left: string, right: string, active: nat, n: nat)
    requires SideReads(left, active + 1) && SideReads(right, n)
    ensures SplitsAt(left + "/" + right, |left|, active, n)
  {
    SlashJoin(left, right);
  }

  /** The counter reads back: it holds exactly one '/', the digits before
      it spell `active + 1` and the digits after it spell `n`, each side at
      least two characters long, exactly two while its number is below
      100, and never zero-padded from 10 up. */
  lemma LabelReadsBack(active: nat, n: nat)
    ensures var s := Label(active, n); exists k :: SplitsAt(s, k, active, n)
  {
    var left := PadStart(Decimal(active + 1), 2, '0');
    var right := PadStart(Decimal(n), 2, '0');
    PaddedSide(active + 1);
    PaddedSide(n);
    JoinSplits(left, right, active, n);
    assert Label(active, n) == left + "/" + right;
  }

  /** With 12 periods the counter reads "01/12" on the first and "12/12" on
      the last. */
  lemma TwelvePeriods()
    ensures Label(0, 12) == "01/12"
    ensures Label(11, 12) == "12/12"
  {
    assert Decimal(1) == "1";
    assert Decimal(12) == "12";
    assert PadStart("1", 2, '0') == "01";
    assert PadStart("12", 2, '0') == "12";
  }
}
