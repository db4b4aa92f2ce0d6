/**
  Parsing of numbers with overflow control: overflow_controlled_integer_accumulator.hpp and the digit parsers of
  easy_parser.hpp.
*/
module Digits {
  import opened Wrappers
  import opened Peg
  import opened PegInterpreter

  /**
    An integer type and a base: values are kept modulo `modulus` (the storage type is unsigned), `max` is the
    largest absolute value that fits.  Only signed types are checked against it.
  */
  datatype Kind = Kind(modulus: nat, base: nat, signed: bool, max: nat)

  predicate IsKind(k: Kind) {
    2 <= k.base <= k.modulus && k.max < k.modulus && (!k.signed ==> k.max == k.modulus - 1)
  }

  function Unsigned(modulus: nat, base: nat): Kind
    requires modulus > 0
  {
    Kind(modulus, base, false, modulus - 1)
  }

  /** The value that digits denote. */
  function Exact(base: nat, ds: seq<nat>): nat {
    if ds == [] then 0 else Exact(base, ds[..|ds| - 1]) * base + ds[|ds| - 1]
  }

  predicate AreDigits(base: nat, ds: seq<nat>) {
    forall i :: 0 <= i < |ds| ==> ds[i] < base
  }

  /** One digit more, or none when an overflow is noticed. */
  function NextDigit(k: Kind, current: nat, digit: nat): Option<nat>
    requires IsKind(k)
  {
    var updated := (current * k.base + digit) % k.modulus;
    if updated < current || (k.signed && updated > k.max) then None else Some(updated)
  }

  /** The accumulator after all digits, or none when an overflow was noticed on the way. */
  function Feed(k: Kind, ds: seq<nat>): Option<nat>
    requires IsKind(k)
  {
    if ds == [] then Some(0)
    else
      match Feed(k, ds[..|ds| - 1])
      case None => None
      case Some(current) => NextDigit(k, current, ds[|ds| - 1])
  }

  // ---------------------------------------------------------------- what the accumulator is good for

  /** Numbers that fit are read exactly and never reported. */
  lemma {:induction false} FitsExactly(k: Kind, ds: seq<nat>)
    requires IsKind(k) && AreDigits(k.base, ds) && Exact(k.base, ds) <= k.max
    ensures Feed(k, ds) == Some(Exact(k.base, ds))
  {
    if ds != [] {
      var init, d := ds[..|ds| - 1], ds[|ds| - 1];
      var c := Exact(k.base, init);
      assert c <= c * k.base;
      FitsExactly(k, init);
      ModSmall(c * k.base + d, k.modulus);
    }
  }

  lemma ModSmall(a: nat, m: nat)
    requires a < m
    ensures a % m == a
  {
  }

  /** When nothing is reported, the result is the exact value modulo the storage width, and in range. */
  lemma {:induction false} FeedCongruent(k: Kind, ds: seq<nat>)
    requires IsKind(k) && Feed(k, ds).Some?
    ensures Feed(k, ds).value == Exact(k.base, ds) % k.modulus && Feed(k, ds).value <= k.max
  {
    if ds != [] {
      var init, d := ds[..|ds| - 1], ds[|ds| - 1];
      FeedCongruent(k, init);
      ModMulAdd(Exact(k.base, init), k.base, d, k.modulus);
    } else {
      ModSmall(0, k.modulus);
    }
  }

  lemma ModMulAdd(x: nat, b: nat, d: nat, m: nat)
    requires m > 0
    ensures ((x % m) * b + d) % m == (x * b + d) % m
  {
    var q, r := x / m, x % m;
    assert x == q * m + r;
    assert x * b + d == (q * b) * m + (r * b + d) by {
      assert x * b == (q * m) * b + r * b;
      assert (q * m) * b == (q * b) * m;
    }
    ModPlusMultiple(r * b + d, q * b, m);
  }

  lemma ModPlusMultiple(a: nat, q: nat, m: nat)
    requires m > 0
    ensures (q * m + a) % m == a % m
  {
    var q', r := a / m, a % m;
    assert q * m + a == (q + q') * m + r by {
      assert (q + q') * m == q * m + q' * m;
    }
    ModUnique(q * m + a, q + q', r, m);
  }

  lemma ModUnique(a: nat, q: nat, r: nat, m: nat)
    requires a == q * m + r && r < m
    ensures a % m == r
  {
    var q', r' := a / m, a % m;
    assert (q - q') * m == q * m - q' * m == r' - r;
    if q > q' {
      MulAtLeast(q - q', m);
    } else if q < q' {
      MulAtLeast(q' - q, m);
    }
  }

  lemma MulAtLeast(x: int, m: nat)
    requires x >= 1
    ensures x * m >= m
  {
    assert x * m == (x - 1) * m + m;
  }

  /** The accumulator gives the number that was written if and only if that number fits. */
  lemma ExactIffFits(k: Kind, ds: seq<nat>)
    requires IsKind(k) && AreDigits(k.base, ds)
    ensures Feed(k, ds) == Some(Exact(k.base, ds)) <==> Exact(k.base, ds) <= k.max
  {
    if Exact(k.base, ds) <= k.max {
      FitsExactly(k, ds);
    } else if Feed(k, ds).Some? {
      FeedCongruent(k, ds);
    }
  }

  /** With the digit at i the value modulo the width gets smaller, or too large for a signed type. */
  predicate Breaks(k: Kind, ds: seq<nat>, i: nat)
    requires IsKind(k) && i < |ds|
  {
    var before, after := Exact(k.base, ds[..i]) % k.modulus, Exact(k.base, ds[..i + 1]) % k.modulus;
    after < before || (k.signed && after > k.max)
  }

  predicate Broken(k: Kind, ds: seq<nat>)
    requires IsKind(k)
  {
    exists i: nat :: i < |ds| && Breaks(k, ds, i)
  }

  /** An overflow is reported if and only if some digit makes the value modulo the width break. */
  lemma {:induction false} ReportedIff(k: Kind, ds: seq<nat>)
    requires IsKind(k)
    ensures Feed(k, ds).None? <==> Broken(k, ds)
    decreases |ds|
  {
    if ds != [] {
      ReportedIff(k, ds[..|ds| - 1]);
      BrokenInit(k, ds);
      if Feed(k, ds[..|ds| - 1]).Some? {
        LastReported(k, ds);
      }
    }
  }

  lemma LastReported(k: Kind, ds: seq<nat>)
    requires IsKind(k) && ds != [] && Feed(k, ds[..|ds| - 1]).Some?
    ensures Feed(k, ds).None? <==> Breaks(k, ds, |ds| - 1)
  {
    var n := |ds| - 1;
    var x, v := Exact(k.base, ds[..n]), Exact(k.base, ds);
    FeedCongruent(k, ds[..n]);
    NextCongruent(k, x, x % k.modulus, ds[n], v);
    assert ds[..n + 1] == ds;
  }

  lemma NextCongruent(k: Kind, x: nat, current: nat, digit: nat, v: nat)
    requires IsKind(k) && current == x % k.modulus && v == x * k.base + digit
    ensures NextDigit(k, current, digit).None? <==> v % k.modulus < current || (k.signed && v % k.modulus > k.max)
  {
    ModMulAdd(x, k.base, digit, k.modulus);
  }

  lemma BrokenInit(k: Kind, ds: seq<nat>)
    requires IsKind(k) && ds != []
    ensures Broken(k, ds) <==> Broken(k, ds[..|ds| - 1]) || Breaks(k, ds, |ds| - 1)
  {
    var init := ds[..|ds| - 1];
    forall i: nat | i < |init|
      ensures Breaks(k, init, i) <==> Breaks(k, ds, i)
    {
      assert init[..i] == ds[..i] && init[..i + 1] == ds[..i + 1];
    }
  }

  /** An overflow goes unnoticed if and only if the number does not fit and no digit makes the value break. */
  lemma MissedIff(k: Kind, ds: seq<nat>)
    requires IsKind(k) && AreDigits(k.base, ds)
    ensures Feed(k, ds).Some? && Feed(k, ds).value != Exact(k.base, ds) <==>
            Exact(k.base, ds) > k.max && !Broken(k, ds)
  {
    ReportedIff(k, ds);
    ExactIffFits(k, ds);
  }

  /** An overflow is reported only for numbers that do not fit. */
  lemma ReportsAreTrue(k: Kind, ds: seq<nat>)
    requires IsKind(k) && AreDigits(k.base, ds)
    ensures Broken(k, ds) ==> Exact(k.base, ds) > k.max
  {
    ReportedIff(k, ds);
    ExactIffFits(k, ds);
  }

  /** Not every overflow is reported: as an 8-bit number, 300 is read as 44. */
  lemma OverflowMissed()
    ensures Feed(Unsigned(256, 10), [3, 0, 0]) == Some(44) && Exact(10, [3, 0, 0]) == 300
  {
    var k := Unsigned(256, 10);
    assert [3, 0, 0][..2] == [3, 0] && [3, 0][..1] == [3] && [3][..0] == [];
    assert Feed(k, []) == Some(0);
    assert Feed(k, [3]) == Some(3);
    assert Feed(k, [3, 0]) == Some(30);
    assert Exact(10, [3]) == 3 && Exact(10, [3, 0]) == 30;
  }

  // ---------------------------------------------------------------- the accumulator

  /** `overflow_controlled_integer_accumulator_t`; once noticed, an overflow is never forgotten. */
  class Accumulator {
    const k: Kind
    var current: nat
    var overflowDetected: bool
    ghost var digits: seq<nat>

    ghost predicate Valid()
      reads this
    {
      IsKind(k) && Feed(k, digits) == if overflowDetected then None else Some(current)
    }

    constructor (k: Kind)
      requires IsKind(k)
      ensures Valid() && this.k == k && digits == [] && !overflowDetected
    {
      this.k, current, overflowDetected, digits := k, 0, false, [];
    }

    method NextDigit(digit: nat)
      requires Valid()
      modifies this
      ensures Valid() && digits == old(digits) + [digit]
    {
      assert (digits + [digit])[..|digits|] == digits;
      var updated := (current * k.base + digit) % k.modulus;
      if updated < current || (k.signed && updated > k.max) {
        overflowDetected := true;
      } else {
        current := updated;
      }
      digits := digits + [digit];
    }
  }

  // ---------------------------------------------------------------- digit parsers

  function DecimalDigit(ch: char): Option<nat> {
    if '0' <= ch <= '9' then Some((ch - '0') as nat) else None
  }

  function HexDigit(ch: char): Option<nat> {
    if '0' <= ch <= '9' then Some((ch - '0') as nat)
    else if 'A' <= ch <= 'F' then Some(10 + (ch - 'A') as nat)
    else if 'a' <= ch <= 'f' then Some(10 + (ch - 'a') as nat)
    else None
  }

  /** The values of the digits at the head of a text, at most `room` of them. */
  function Leading(digit: char -> Option<nat>, s: string, room: nat): (ds: seq<nat>)
    ensures |ds| <= room && |ds| <= |s|
    decreases room
  {
    if room > 0 && s != [] && digit(s[0]).Some? then [digit(s[0]).value] + Leading(digit, s[1..], room - 1) else []
  }

  /** Digits are counted in eight bits. */
  type Int8 = x: int | -128 <= x < 128

  function Counted(n: nat): Int8 { (n + 128) % 256 - 128 }

  /** After how many digits the count is the maximum: a maximum of zero or less is reached once around. */
  function Limit(max: Int8): nat { if max > 0 then max else 256 + max }

  lemma LimitIs(max: Int8, n: nat, next: nat)
    requires n < Limit(max) && next == n + 1
    ensures Counted(next) == if Counted(n) == 127 then -128 else Counted(n) + 1
    ensures Counted(next) == max <==> next == Limit(max)
  {
  }

  /** The hexadecimal digits are those of either case, with their values. */
  lemma HexDigitIff(ch: char, v: nat)
    ensures HexDigit(ch) == Some(v) <==> v < 16 && (ch == "0123456789ABCDEF"[v] || ch == "0123456789abcdef"[v])
    ensures DecimalDigit(ch) == Some(v) <==> v < 10 && ch == "0123456789"[v]
  {
  }

  /** What the digit parsers find at a position of a text. */
  function NumberAt(k: Kind, digit: char -> Option<nat>, s: string, pos: nat, min: Int8, max: Int8): (r: Product<nat>)
    requires IsKind(k) && pos <= |s|
    ensures pos <= r.next <= |s|
  {
    var ds := Leading(digit, s[pos..], Limit(max));
    if Feed(k, ds).None? then Product(Err(ParseError(pos, IllegalValue)), pos)
    else if Counted(|ds|) < min then Product(Err(ParseError(pos + |ds|, PatternNotFound)), pos)
    else Product(Ok(Feed(k, ds).value), pos + |ds|)
  }

  /**
    When `ds` are the digits from a position on, up to the limit: a number is read if and only if they are enough and
    no overflow is noticed among them, and then just they are taken.  Otherwise nothing is taken, and the error is at the
    position for an overflow, and behind the digits if they are too few.
  */
  lemma NumberIff(k: Kind, digit: char -> Option<nat>, s: string, pos: nat, min: Int8, max: Int8, ds: seq<nat>)
    requires IsKind(k) && pos <= |s| && |ds| <= Limit(max) && pos + |ds| <= |s|
    requires forall i :: 0 <= i < |ds| ==> digit(s[pos + i]) == Some(ds[i])
    requires |ds| == Limit(max) || pos + |ds| == |s| || digit(s[pos + |ds|]) == None
    ensures NumberAt(k, digit, s, pos, min, max) ==
            if Broken(k, ds) then Product(Err(ParseError(pos, IllegalValue)), pos)
            else if Counted(|ds|) < min then Product(Err(ParseError(pos + |ds|, PatternNotFound)), pos)
            else Product(Ok(Exact(k.base, ds) % k.modulus), pos + |ds|)
  {
    var text := s[pos..];
    forall i | 0 <= i < |ds|
      ensures digit(text[i]) == Some(ds[i])
    {
      assert text[i] == s[pos + i];
    }
    LeadingIs(digit, text, Limit(max), ds);
    ReportedIff(k, ds);
    if Feed(k, ds).Some? {
      FeedCongruent(k, ds);
    }
  }

  lemma {:induction false} FeedReports(k: Kind, a: seq<nat>, b: seq<nat>)
    requires IsKind(k) && Feed(k, a).None?
    ensures Feed(k, a + b).None?
    decreases |b|
  {
    if b == [] {
      assert a + b == a;
    } else {
      assert (a + b)[..|a + b| - 1] == a + b[..|b| - 1];
      FeedReports(k, a, b[..|b| - 1]);
    }
  }

  /** The leading digits are determined by what they have to be. */
  lemma {:induction false} LeadingIs(digit: char -> Option<nat>, s: string, room: nat, ds: seq<nat>)
    requires |ds| <= room && |ds| <= |s|
    requires forall i :: 0 <= i < |ds| ==> digit(s[i]) == Some(ds[i])
    ensures ds <= Leading(digit, s, room)
    ensures |ds| == room || |ds| == |s| || digit(s[|ds|]) == None ==> Leading(digit, s, room) == ds
    decreases room
  {
    if ds != [] {
      LeadingIs(digit, s[1..], room - 1, ds[1..]);
      assert ds == [ds[0]] + ds[1..];
    }
  }

  /** An overflow noticed early is an overflow of all leading digits. */
  lemma ReportEarly(k: Kind, digit: char -> Option<nat>, s: string, room: nat, ds: seq<nat>)
    requires |ds| <= room && |ds| <= |s| && (forall i :: 0 <= i < |ds| ==> digit(s[i]) == Some(ds[i]))
    requires IsKind(k) && Feed(k, ds).None?
    ensures Feed(k, Leading(digit, s, room)).None?
  {
    LeadingIs(digit, s, room, ds);
    var all := Leading(digit, s, room);
    assert all == ds + all[|ds|..];
    FeedReports(k, ds, all[|ds|..]);
  }

  /** The loop over the digits: ends at the maximum, at a character that is no digit, or at an overflow. */
  method TakeDigits(from: Source, max: Int8, acc: Accumulator, digit: char -> Option<nat>) returns (processed: Int8)
    requires from.Valid() && acc.Valid() && acc.digits == [] && !acc.overflowDetected
    modifies from`index, acc
    ensures from.Valid() && acc.Valid()
    ensures var text := from.data[old(from.index)..];
            && |acc.digits| <= Limit(max) && |acc.digits| <= |text|
            && (forall i :: 0 <= i < |acc.digits| ==> digit(text[i]) == Some(acc.digits[i]))
            && (!acc.overflowDetected ==>
                  && from.index == old(from.index) + |acc.digits| && processed == Counted(|acc.digits|)
                  && (|acc.digits| == Limit(max) || |acc.digits| == |text| || digit(text[|acc.digits|]) == None))
  {
    ghost var start, text := from.index, from.data[from.index..];
    ghost var n := 0;
    processed := 0;
    var ch := from.GetCh();
    while ch.Some?
      invariant from.Valid() && acc.Valid() && !acc.overflowDetected
      invariant n == |acc.digits| < Limit(max) && n <= |text| && processed == Counted(n)
      invariant forall i :: 0 <= i < n ==> digit(text[i]) == Some(acc.digits[i])
      invariant ch == if n < |text| then Some(text[n]) else None
      invariant from.index == start + n + if ch.Some? then 1 else 0
      decreases |text| - n, ch.Some?
    {
      var d := digit(ch.value);
      if d.None? {
        from.PutBack();
        return;
      }
      acc.NextDigit(d.value);
      ghost var next := n + 1;
      LimitIs(max, n, next);
      n := next;
      processed := if processed == 127 then -128 else processed + 1;
      if acc.overflowDetected || processed == max {
        return;
      }
      ch := from.GetCh();
    }
  }

  /**
    `try_parse_digits_with_digits_limit` and its hexadecimal twin.  As many digits as there are are taken, up to
    the maximum; an overflow noticed among them and too few of them are errors that leave the cursor alone.
  */
  method TryParseDigits(from: Source, min: Int8, max: Int8, k: Kind, digit: char -> Option<nat>)
    returns (value: Result<nat, ParseError>)
    requires from.Valid() && IsKind(k)
    modifies from`index
    ensures from.Valid()
    ensures NumberAt(k, digit, from.data, old(from.index), min, max) == Product(value, from.index)
  {
    var startedAt := from.index;
    ghost var text := from.data[startedAt..];
    var acc := new Accumulator(k);
    var processed := TakeDigits(from, max, acc, digit);
    if acc.overflowDetected {
      ReportEarly(k, digit, text, Limit(max), acc.digits);
      from.BackTo(startedAt);
      return Err(ParseError(startedAt, IllegalValue));
    }
    LeadingIs(digit, text, Limit(max), acc.digits);
    if processed < min {
      value := Err(ParseError(from.index, PatternNotFound));
      from.BackTo(startedAt);
    } else {
      value := Ok(acc.current);
    }
  }

  // ---------------------------------------------------------------- signed numbers

  /** The storage of a signed type, for the digits of positive and of negative numbers. */
  function SignedKind(half: nat, negative: bool): (k: Kind)
    requires half >= 5
    ensures IsKind(k)
  {
    Kind(2 * half, 10, true, if negative then half else half - 1)
  }

  /** A sign, or none, and digits. */
  function SignedAt(half: nat, s: string, pos: nat, min: Int8, max: Int8): Product<int>
    requires half >= 5 && pos <= |s|
  {
    if pos == |s| then Product(Err(ParseError(pos, PatternNotFound)), pos)
    else if s[pos] == '-' then
      var r := NumberAt(SignedKind(half, true), DecimalDigit, s, pos + 1, min, max);
      if r.value.Ok? then Product(Ok(0 - r.value.value), r.next) else Product(Err(r.value.error), pos)
    else if s[pos] == '+' then
      var r := NumberAt(SignedKind(half, false), DecimalDigit, s, pos + 1, min, max);
      if r.value.Ok? then Product(Ok(r.value.value), r.next) else Product(Err(r.value.error), pos)
    else if DecimalDigit(s[pos]).Some? then
      var r := NumberAt(SignedKind(half, false), DecimalDigit, s, pos, min, max);
      if r.value.Ok? then Product(Ok(r.value.value), r.next) else Product(Err(r.value.error), pos)
    else Product(Err(ParseError(pos + 1, PatternNotFound)), pos)
  }

  /** `decimal_number_producer_t`. */
  method TryParseSigned(from: Source, half: nat, min: Int8, max: Int8) returns (value: Result<int, ParseError>)
    requires from.Valid() && half >= 5
    modifies from`index
    ensures from.Valid() && SignedAt(half, from.data, old(from.index), min, max) == Product(value, from.index)
  {
    var startedAt := from.index;
    var sign := from.GetCh();
    if sign.None? {
      return Err(ParseError(from.index, PatternNotFound));
    }
    var r: Result<nat, ParseError>;
    if sign.value == '-' {
      r := TryParseDigits(from, min, max, SignedKind(half, true), DecimalDigit);
    } else if sign.value == '+' {
      r := TryParseDigits(from, min, max, SignedKind(half, false), DecimalDigit);
    } else if DecimalDigit(sign.value).Some? {
      from.PutBack();
      r := TryParseDigits(from, min, max, SignedKind(half, false), DecimalDigit);
    } else {
      r := Err(ParseError(from.index, PatternNotFound));
    }
    if r.Ok? {
      value := Ok(if sign.value == '-' then 0 - r.value else r.value);
    } else {
      value := Err(r.error);
      from.BackTo(startedAt);
    }
  }

  // ---------------------------------------------------------------- written numbers are read back

  /** The digits of a number in a base. */
  function Written(base: nat, n: nat): (ds: seq<nat>)
    requires base >= 2
    ensures |ds| > 0 && AreDigits(base, ds)
  {
    if n < base then [n]
    else
      DivShrinks(n, base);
      Written(base, n / base) + [n % base]
  }

  lemma DivShrinks(n: nat, base: nat)
    requires n >= base >= 2
    ensures n / base < n && n % base < base
  {
  }

  lemma {:induction false} WrittenExact(base: nat, n: nat)
    requires base >= 2
    ensures Exact(base, Written(base, n)) == n
  {
    var ds := Written(base, n);
    if n < base {
      assert ds[..0] == [];
    } else {
      DivShrinks(n, base);
      WrittenExact(base, n / base);
      ExactMore(base, Written(base, n / base), n / base, n % base, n);
    }
  }

  /** No leading zeros. */
  lemma {:induction false} WrittenLeads(base: nat, n: nat)
    requires base >= 2 && n > 0
    ensures Written(base, n)[0] > 0
    decreases n
  {
    if n >= base {
      DivShrinks(n, base);
      QuotientPositive(n, base);
      WrittenLeads(base, n / base);
    }
  }

  lemma QuotientPositive(n: nat, base: nat)
    requires n >= base > 0
    ensures n / base > 0
  {
  }

  lemma ExactMore(base: nat, ds: seq<nat>, q: nat, r: nat, n: nat)
    requires base > 0 && Exact(base, ds) == q == n / base && r == n % base
    ensures Exact(base, ds + [r]) == n
  {
    assert (ds + [r])[..|ds|] == ds;
    Divided(n, base, q, r);
  }

  lemma Divided(n: nat, base: nat, q: nat, r: nat)
    requires base > 0 && q == n / base && r == n % base
    ensures q * base + r == n
  {
  }

  function Decimal(n: nat): seq<nat> { Written(10, n) }

  function Text(ds: seq<nat>): (s: string)
    requires AreDigits(10, ds)
    ensures |s| == |ds|
  {
    seq(|ds|, i requires 0 <= i < |ds| => '0' + ds[i] as char)
  }

  lemma TextRead(ds: seq<nat>, before: string, after: string, max: nat)
    requires AreDigits(10, ds) && |ds| <= max && (after != [] ==> DecimalDigit(after[0]) == None)
    ensures var s := before + Text(ds) + after; Leading(DecimalDigit, s[|before|..], max) == ds
  {
    var s := before + Text(ds) + after;
    assert s[|before|..] == Text(ds) + after;
    forall i | 0 <= i < |ds|
      ensures DecimalDigit((Text(ds) + after)[i]) == Some(ds[i])
    {
      assert (Text(ds) + after)[i] == '0' + ds[i] as char;
    }
    LeadingIs(DecimalDigit, Text(ds) + after, max, ds);
  }

  /** A number that fits, written in decimal and followed by anything but a digit, is read back. */
  lemma UnsignedRoundTrip(k: Kind, n: nat, before: string, after: string, min: Int8, max: Int8)
    requires IsKind(k) && k.base == 10 && n <= k.max && min <= |Decimal(n)| <= max
    requires after != [] ==> DecimalDigit(after[0]) == None
    ensures NumberAt(k, DecimalDigit, before + Text(Decimal(n)) + after, |before|, min, max) ==
            Product(Ok(n), |before| + |Decimal(n)|)
  {
    TextRead(Decimal(n), before, after, max);
    WrittenExact(10, n);
    FitsExactly(k, Decimal(n));
  }

  function SignedText(v: int): string {
    if v < 0 then "-" + Text(Decimal(-v)) else Text(Decimal(v))
  }

  /** Every value of a signed type, the least one included, is read back, positive ones also behind a plus sign. */
  lemma SignedRoundTrip(half: nat, v: int, after: string, max: Int8)
    requires half >= 5 && 0 - half <= v < half && |Decimal(if v < 0 then -v else v)| <= max
    requires after != [] ==> DecimalDigit(after[0]) == None
    ensures SignedAt(half, SignedText(v) + after, 0, 1, max) == Product(Ok(v), |SignedText(v)|)
    ensures v >= 0 ==> SignedAt(half, "+" + SignedText(v) + after, 0, 1, max) == Product(Ok(v), 1 + |SignedText(v)|)
  {
    if v < 0 {
      NegativeRoundTrip(half, -v, after, max);
    } else {
      PositiveRoundTrip(half, v, after, max);
      PlusRoundTrip(half, v, after, max);
    }
  }

  lemma PlusRoundTrip(half: nat, n: nat, after: string, max: Int8)
    requires half >= 5 && n < half && |Decimal(n)| <= max
    requires after != [] ==> DecimalDigit(after[0]) == None
    ensures var text := "+" + Text(Decimal(n)); SignedAt(half, text + after, 0, 1, max) == Product(Ok(n), |text|)
  {
    var s := "+" + Text(Decimal(n)) + after;
    assert s[0] == '+';
    UnsignedRoundTrip(SignedKind(half, false), n, "+", after, 1, max);
  }

  /** Without a sign or a digit nothing is read. */
  lemma NoSign(half: nat, s: string, pos: nat, min: Int8, max: Int8)
    requires half >= 5 && pos <= |s|
    requires pos == |s| || (s[pos] != '-' && s[pos] != '+' && DecimalDigit(s[pos]).None?)
    ensures var r := SignedAt(half, s, pos, min, max); r.value.Err? && r.next == pos
  {
  }

  lemma NegativeRoundTrip(half: nat, n: nat, after: string, max: Int8)
    requires half >= 5 && 0 < n <= half && |Decimal(n)| <= max
    requires after != [] ==> DecimalDigit(after[0]) == None
    ensures var text := "-" + Text(Decimal(n)); SignedAt(half, text + after, 0, 1, max) == Product(Ok(0 - n), |text|)
  {
    var s := "-" + Text(Decimal(n)) + after;
    assert s[0] == '-';
    UnsignedRoundTrip(SignedKind(half, true), n, "-", after, 1, max);
  }

  lemma PositiveRoundTrip(half: nat, n: nat, after: string, max: Int8)
    requires half >= 5 && n < half && |Decimal(n)| <= max
    requires after != [] ==> DecimalDigit(after[0]) == None
    ensures var text := Text(Decimal(n)); SignedAt(half, text + after, 0, 1, max) == Product(Ok(n), |text|)
  {
    var s := "" + Text(Decimal(n)) + after;
    assert s == Text(Decimal(n)) + after;
    assert s[0] == '0' + Decimal(n)[0] as char;
    UnsignedRoundTrip(SignedKind(half, false), n, "", after, 1, max);
  }
}
