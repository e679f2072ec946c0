/**
 Numbers and strings (src/stdlib.c): `strtoul`, `ulltoa` and `lltoa`.
 */
module Stdlib {
  import opened Arithmetic

  const WORD: nat := 0x1_0000_0000_0000_0000
  const ULONG_MAX: nat := 0xffff_ffff_ffff_ffff

  // ---- characters ----------------------------------------------------------------------------

  predicate IsSpace(c: char) { 9 <= c as int <= 13 || c == ' ' }

  function ToUpper(c: char): char { if 'a' <= c <= 'z' then (c as int - 32) as char else c }

  function ToLower(c: char): char { if 'A' <= c <= 'Z' then (c as int + 32) as char else c }

  /** What `strtoul` takes a character for, without checking it. */
  function Digit(c: char): int {
    var u := ToUpper(c);
    if '0' <= u <= '9' then u as int - '0' as int else u as int - 'A' as int + 10
  }

  /** `digits[r]` (src/stdlib.c:59). */
  function DigitChar(r: nat): char
    requires r < 36
  {
    if r < 10 then ('0' as int + r) as char else ('a' as int + r - 10) as char
  }

  lemma DigitRoundTrip(r: nat)
    requires r < 36
    ensures Digit(DigitChar(r)) == r
    ensures !IsSpace(DigitChar(r)) && DigitChar(r) != '-' && DigitChar(r) != '+' && DigitChar(r) != '\0'
  {
  }

  // ---- the parser ----------------------------------------------------------------------------

  /** The character at `i`, or the terminating zero. */
  function At(s: string, i: nat): char { if i < |s| then s[i] else '\0' }

  datatype Parsed = Parsed(ret: nat, pos: nat, consumed: bool)

  /** The digit loop (src/stdlib.c:35-46), with its arithmetic modulo 2^64. */
  function Accumulate(s: string, base: nat, pos: nat, ret: nat, consumed: bool): Parsed
    requires base > 0 && pos <= |s|
    decreases |s| - pos
  {
    if pos == |s| then Parsed(ret, pos, consumed)
    else
      var d := Digit(s[pos]);
      if ret > (ULONG_MAX - d) % WORD / base then Parsed(ULONG_MAX, pos, consumed)
      else Accumulate(s, base, pos + 1, (ret * base + d) % WORD, true)
  }

  function SkipSpaces(s: string, pos: nat): (p: nat)
    requires pos <= |s|
    ensures pos <= p <= |s|
    decreases |s| - pos
  {
    if pos < |s| && IsSpace(s[pos]) then SkipSpaces(s, pos + 1) else pos
  }

  /** The base to use and where the digits start (src/stdlib.c:19-33). */
  function Prefix(s: string, base: nat, pos: nat): (r: (nat, nat))
    requires pos <= |s|
    ensures r.0 > 0 && pos <= r.1 <= |s|
  {
    if base == 0 then
      if At(s, pos) != '0' then (10, pos)
      else if ToLower(At(s, pos + 1)) == 'x' then (16, pos + 2)
      else (8, pos + 1)
    else if base == 8 && At(s, pos) == '0' then (8, pos + 1)
    else if base == 16 && At(s, pos) == '0' && At(s, pos + 1) == 'x' then (16, pos + 2)
    else (base, pos)
  }

  /** Where the number is to be found: after blanks and a sign (src/stdlib.c:11-17). */
  function Number(s: string): (p: nat)
    ensures p <= |s|
  {
    var p := SkipSpaces(s, 0);
    if At(s, p) == '-' || At(s, p) == '+' then p + 1 else p
  }

  predicate Negative(s: string) { At(s, SkipSpaces(s, 0)) == '-' }

  /** Where the digits are to be found: after a prefix, too. */
  function Start(s: string, base: nat): (p: nat)
    ensures Number(s) <= p <= |s|
  {
    Prefix(s, base, Number(s)).1
  }

  function Negate(x: nat): nat { (WORD - x % WORD) % WORD }

  /** What `strtoul` returns, and the position that it stores in `*endptr`. */
  function Strtoul(s: string, base: nat): (nat, nat) {
    var (b, start) := Prefix(s, base, Number(s));
    var r := Accumulate(s, b, start, 0, false);
    (if Negative(s) then Negate(r.ret) else r.ret, if r.consumed then r.pos else 0)
  }

  /** `strtoul` (src/stdlib.c:5-55). */
  method StrToUL(s: string, base: nat) returns (ret: nat, end: nat)
    ensures (ret, end) == Strtoul(s, base)
  {
    var ptr := 0;
    while IsSpace(At(s, ptr))
      invariant ptr <= |s| && SkipSpaces(s, ptr) == SkipSpaces(s, 0)
      decreases |s| - ptr
    {
      ptr := ptr + 1;
    }
    var negate := false;
    if At(s, ptr) == '-' || At(s, ptr) == '+' {
      negate := At(s, ptr) == '-';
      ptr := ptr + 1;
    }
    var b;
    b, ptr := SkipPrefix(s, ptr, base);
    var consumed;
    ret, ptr, consumed := ReadDigits(s, ptr, b);
    end := if consumed then ptr else 0;
    if negate {
      ret := Negate(ret);
    }
  }

  method SkipPrefix(s: string, pos: nat, base: nat) returns (b: nat, ptr: nat)
    requires pos <= |s|
    ensures (b, ptr) == Prefix(s, base, pos)
  {
    b, ptr := base, pos;
    if b == 0 {
      b := 10;
      if At(s, ptr) == '0' {
        b := 8;
        ptr := ptr + 1;
        if ToLower(At(s, ptr)) == 'x' {
          b := 16;
          ptr := ptr + 1;
        }
      }
    } else {
      if b == 8 && At(s, ptr) == '0' {
        ptr := ptr + 1;
      }
      if b == 16 && At(s, ptr) == '0' && At(s, ptr + 1) == 'x' {
        ptr := ptr + 2;
      }
    }
  }

  method ReadDigits(s: string, start: nat, base: nat) returns (ret: nat, ptr: nat, consumed: bool)
    requires start <= |s| && base > 0
    ensures Parsed(ret, ptr, consumed) == Accumulate(s, base, start, 0, false)
  {
    ret, ptr, consumed := 0, start, false;
    while ptr < |s|
      invariant ptr <= |s|
      invariant Accumulate(s, base, ptr, ret, consumed) == Accumulate(s, base, start, 0, false)
    {
      var digit := Digit(s[ptr]);
      if ret > (ULONG_MAX - digit) % WORD / base {
        ret := ULONG_MAX;
        break;
      }
      ret := (ret * base + digit) % WORD;
      consumed := true;
      ptr := ptr + 1;
    }
  }

  // ---- what the digits mean ------------------------------------------------------------------

  predicate Valid(s: string, base: nat, pos: nat) {
    forall i :: pos <= i < |s| ==> 0 <= Digit(s[i]) < base
  }

  /** The number that the digits from `pos` on add to `ret`, without any limit. */
  function Value(s: string, base: nat, pos: nat, ret: nat): nat
    requires pos <= |s| && Valid(s, base, pos)
    decreases |s| - pos
  {
    if pos == |s| then ret else Value(s, base, pos + 1, ret * base + Digit(s[pos]))
  }

  lemma {:induction false} ValueGrows(s: string, base: nat, pos: nat, ret: nat)
    requires pos <= |s| && Valid(s, base, pos) && base > 0
    ensures Value(s, base, pos, ret) >= ret
    decreases |s| - pos
  {
    hide Digit;
    if pos < |s| {
      ValueGrows(s, base, pos + 1, ret * base + Digit(s[pos]));
      MulMonotone(1, base, ret);
    }
  }

  lemma Rest(x: nat, n: nat)
    requires n > 0
    ensures x / n * n <= x < x / n * n + n
  {
    assert x == n * (x / n) + x % n;
  }

  /** The test in the loop is exact: it refuses a digit just when the sum would not fit. */
  lemma RoomTest(ret: nat, d: nat, base: nat)
    requires 0 < base <= ULONG_MAX && d < base
    ensures ret > (ULONG_MAX - d) % WORD / base <==> ret * base + d > ULONG_MAX
  {
    var room := ULONG_MAX - d;
    var q := room / base;
    Rest(room, base);
    MulOrder(ret, q, base);
    MulOrder(q + 1, ret, base);
    assert (q + 1) * base == q * base + base;
  }

  /** Over a part `t` of the string that has digits only, the loop is exact, or it saturates on the way. */
  lemma {:induction false} AccumulateExact(s: string, t: string, base: nat, pos: nat, ret: nat, consumed: bool)
    requires t <= s && pos <= |t| && Valid(t, base, pos) && 0 < base <= ULONG_MAX && ret <= ULONG_MAX
    ensures
      var v, r := Value(t, base, pos, ret), Accumulate(s, base, pos, ret, consumed);
      if v <= ULONG_MAX then r == Accumulate(s, base, |t|, v, consumed || pos < |t|)
      else r.ret == ULONG_MAX && pos <= r.pos < |t| && r.consumed == (consumed || pos < r.pos)
    decreases |t| - pos
  {
    hide Accumulate, Digit;
    if pos < |t| {
      var sum := ret * base + Digit(s[pos]);
      if sum > ULONG_MAX {
        Stops(s, base, pos, ret, consumed);
        ValueGrows(t, base, pos + 1, sum);
      } else {
        GoesOn(s, base, pos, ret, consumed);
        AccumulateExact(s, t, base, pos + 1, sum, true);
      }
    }
  }

  lemma Ends(s: string, base: nat, ret: nat, consumed: bool)
    requires base > 0
    ensures Accumulate(s, base, |s|, ret, consumed) == Parsed(ret, |s|, consumed)
  {
  }

  lemma Stops(s: string, base: nat, pos: nat, ret: nat, consumed: bool)
    requires pos < |s| && 0 < base <= ULONG_MAX && 0 <= Digit(s[pos]) < base
    requires ret * base + Digit(s[pos]) > ULONG_MAX
    ensures Accumulate(s, base, pos, ret, consumed) == Parsed(ULONG_MAX, pos, consumed)
  {
    hide Digit;
    RoomTest(ret, Digit(s[pos]), base);
  }

  lemma GoesOn(s: string, base: nat, pos: nat, ret: nat, consumed: bool)
    requires pos < |s| && 0 < base <= ULONG_MAX && 0 <= Digit(s[pos]) < base
    requires ret * base + Digit(s[pos]) <= ULONG_MAX
    ensures Accumulate(s, base, pos, ret, consumed) == Accumulate(s, base, pos + 1, ret * base + Digit(s[pos]), true)
  {
    hide Digit;
    RoomTest(ret, Digit(s[pos]), base);
    Small(ret * base + Digit(s[pos]));
  }

  lemma Small(x: nat)
    requires x <= ULONG_MAX
    ensures x % WORD == x
  {
  }

  /** A string of digits, without sign or prefix. */
  predicate DigitString(s: string, base: nat) {
    && s != [] && 2 <= base <= 36 && Valid(s, base, 0)
    && forall i :: 0 <= i < |s| ==> !IsSpace(s[i]) && s[i] != '-' && s[i] != '+'
  }

  lemma PrefixKeepsValue(s: string, base: nat, pos: nat)
    requires pos < |s| && Valid(s, base, pos) && 2 <= base <= 36
    ensures
      var (b, start) := Prefix(s, base, pos);
      b == base && Valid(s, base, start) && Value(s, base, start, 0) == Value(s, base, pos, 0)
    ensures Prefix(s, base, pos).1 == |s| <==> base == 8 && s[pos..] == "0"
  {
    assert pos + 1 < |s| ==> 0 <= Digit(s[pos + 1]) < base;
  }

  /** A string of digits is read to its end if its value fits, except that nothing is reported for a lone zero
      in base 8. */
  lemma DigitsRead(s: string, base: nat)
    requires DigitString(s, base) && Value(s, base, 0, 0) <= ULONG_MAX
    ensures Strtoul(s, base) == (Value(s, base, 0, 0), if base == 8 && s == "0" then 0 else |s|)
  {
    assert !IsSpace(s[0]) && s[0] != '-' && s[0] != '+';
    assert SkipSpaces(s, 0) == 0;
    PrefixKeepsValue(s, base, 0);
    assert s[0..] == s;
    var start := Start(s, base);
    AccumulateExact(s, s, base, start, 0, false);
    Ends(s, base, Value(s, base, 0, 0), start < |s|);
  }

  // ---- what is read, and what is reported ----------------------------------------------------

  /** The loop never goes back, and what it has consumed stays consumed. */
  lemma {:induction false} Forward(s: string, base: nat, pos: nat, ret: nat, consumed: bool)
    requires base > 0 && pos <= |s|
    ensures Accumulate(s, base, pos, ret, consumed).pos >= pos
    ensures consumed ==> Accumulate(s, base, pos, ret, consumed).consumed
    decreases |s| - pos
  {
    hide Digit;
    if pos < |s| { Forward(s, base, pos + 1, (ret * base + Digit(s[pos])) % WORD, true); }
  }

  /** The first character is always taken, whatever it is. */
  lemma FirstTaken(s: string, base: nat, pos: nat)
    requires base > 0 && pos < |s|
    ensures var r := Accumulate(s, base, pos, 0, false); r.pos > pos && r.consumed
  {
    hide Digit;
    Forward(s, base, pos + 1, Digit(s[pos]) % WORD, true);
  }

  /** What `strtoul` takes for a prefix is the whole number, a zero. */
  predicate LosesZero(s: string, base: nat) {
    var rest := s[Number(s)..];
    || (rest == "0" && (base == 0 || base == 8))
    || (rest == "0x" && (base == 0 || base == 16))
    || (rest == "0X" && base == 0)
  }

  /** For every string and base: nothing is reported as read just when blanks, sign and prefix use up the
      string, that is, when no number is there, or a zero that is taken for a prefix. */
  lemma NothingReported(s: string, base: nat)
    ensures Strtoul(s, base).1 == 0 <==> Start(s, base) == |s|
    ensures Start(s, base) == |s| <==> Number(s) == |s| || LosesZero(s, base)
  {
    hide SkipSpaces, Digit;
    var (b, start) := Prefix(s, base, Number(s));
    if start < |s| { FirstTaken(s, b, start); } else { Ends(s, b, 0, false); }
    PrefixAll(s, base, Number(s));
  }

  lemma PrefixAll(s: string, base: nat, p: nat)
    requires p <= |s|
    ensures
      var rest := s[p..];
      Prefix(s, base, p).1 == |s| <==>
        || p == |s|
        || (rest == "0" && (base == 0 || base == 8))
        || (rest == "0x" && (base == 0 || base == 16))
        || (rest == "0X" && base == 0)
  {
    var rest := s[p..];
    if p + 1 == |s| { assert rest == [s[p]]; }
    if p + 2 == |s| { assert rest == [s[p], s[p + 1]]; }
  }

  /** A digit of section 7.20.1.4 of ISO/IEC 9899:1999: a decimal digit, or a letter from `a` for 10 on. */
  predicate IsDigit(c: char, base: nat) {
    ('0' <= c <= '9' || 'a' <= c <= 'z' || 'A' <= c <= 'Z') && Digit(c) < base
  }

  /** Where the digits from `pos` on end. */
  function RunEnd(s: string, base: nat, pos: nat): (e: nat)
    requires pos <= |s|
    ensures pos <= e <= |s| && Valid(s[..e], base, pos)
    ensures forall i :: pos <= i < e ==> IsDigit(s[i], base)
    ensures e < |s| ==> !IsDigit(s[e], base)
    decreases |s| - pos
  {
    if pos < |s| && IsDigit(s[pos], base) then RunEnd(s, base, pos + 1) else pos
  }

  /** The value of these digits. */
  function RunValue(s: string, base: nat, pos: nat): nat
    requires pos <= |s|
  {
    Value(s[..RunEnd(s, base, pos)], base, pos, 0)
  }

  predicate HasHexPrefix(s: string, base: nat, p: nat) {
    && (base == 0 || base == 16)
    && At(s, p) == '0' && ToLower(At(s, p + 1)) == 'x' && IsDigit(At(s, p + 2), 16)
  }

  /** The base and the start of the digits by section 7.20.1.4: a prefix is one only in front of a digit. */
  function StandardPrefix(s: string, base: nat, p: nat): (r: (nat, nat))
    requires p <= |s|
    ensures p <= r.1 <= |s|
  {
    if HasHexPrefix(s, base, p) then (16, p + 2)
    else (if base != 0 then base else if At(s, p) == '0' then 8 else 10, p)
  }

  /** What section 7.20.1.4 of ISO/IEC 9899:1999 asks for: the value of the longest run of digits, or the
      largest number, and where the run ends, or the start of the string if there is none. */
  function Standard(s: string, base: nat): (nat, nat) {
    var (b, from) := StandardPrefix(s, base, Number(s));
    var e, v := RunEnd(s, b, from), RunValue(s, b, from);
    if e == from then (0, 0) else (if v > ULONG_MAX then ULONG_MAX else if Negative(s) then Negate(v) else v, e)
  }

  /** After blanks and sign there is nothing; or after the prefix there are digits, and their value fits, and
      nothing follows them.  (Behind the largest number something may follow, since the loop stops there.) */
  predicate Readable(s: string, base: nat) {
    var (b, start) := Prefix(s, base, Number(s));
    var e, v := RunEnd(s, b, start), RunValue(s, b, start);
    || Number(s) == |s|
    || (start < e && v <= ULONG_MAX && (e == |s| || v == ULONG_MAX))
  }

  /** What the digit loop makes of a run of digits and what follows it. */
  lemma ReadRun(s: string, base: nat, start: nat, e: nat, ret: nat, consumed: bool)
    requires start <= e <= |s| && Valid(s[..e], base, start) && 2 <= base <= 36 && ret <= ULONG_MAX
    requires consumed || (start < e && ret == 0)
    ensures
      var v, r := Value(s[..e], base, start, ret), Accumulate(s, base, start, ret, consumed);
      && r.consumed
      && (v > ULONG_MAX ==> r.pos < e)
      && (v <= ULONG_MAX && e == |s| ==> r.ret == v && r.pos == e)
      && (v <= ULONG_MAX && e < |s| ==> r.pos > e || (r.pos == e && r.ret == ULONG_MAX))
      && (v == ULONG_MAX ==> r.pos == e && r.ret == ULONG_MAX)
  {
    hide Digit, Valid;
    var v := Value(s[..e], base, start, ret);
    Forward(s, base, start, ret, consumed);
    AccumulateExact(s, s[..e], base, start, ret, consumed);
    if v > ULONG_MAX {
      if !consumed { FirstTaken(s, base, start); }
    } else if e == |s| {
      Ends(s, base, v, true);
    } else {
      AtEnd(s, base, e, v);
    }
  }

  /** At a character that is not a digit, the loop stops if the number is the largest, and may go on. */
  lemma AtEnd(s: string, base: nat, e: nat, v: nat)
    requires e < |s| && base >= 2 && v <= ULONG_MAX
    ensures
      var r := Accumulate(s, base, e, v, true);
      && r.consumed && (r.pos > e || (r.pos == e && r.ret == ULONG_MAX)) && (v == ULONG_MAX ==> r.pos == e)
  {
    hide Digit;
    Forward(s, base, e + 1, (v * base + Digit(s[e])) % WORD, true);
    HalfAtMost((ULONG_MAX - Digit(s[e])) % WORD, base);
  }

  lemma HalfAtMost(x: nat, base: nat)
    requires base >= 2 && x <= ULONG_MAX
    ensures x / base < ULONG_MAX
  {
    Rest(x, base);
    if x / base >= ULONG_MAX { MulMonotone(ULONG_MAX, x / base, base); MulMonotone(2, base, ULONG_MAX); }
  }

  /** When the digits say too much, the loop stops at the first of them that does not fit. */
  lemma {:induction false} AccumulateStops(s: string, t: string, base: nat, pos: nat, ret: nat, consumed: bool)
    requires t <= s && pos <= |t| && Valid(t, base, pos) && 0 < base <= ULONG_MAX && ret <= ULONG_MAX
    requires Value(t, base, pos, ret) > ULONG_MAX
    ensures
      var r := Accumulate(s, base, pos, ret, consumed);
      && r.ret == ULONG_MAX && pos <= r.pos < |t|
      && Value(t[..r.pos], base, pos, ret) <= ULONG_MAX < Value(t[..r.pos + 1], base, pos, ret)
    decreases |t| - pos
  {
    hide Accumulate, Digit;
    if pos < |t| {
      var sum := ret * base + Digit(s[pos]);
      if sum > ULONG_MAX {
        Stops(s, base, pos, ret, consumed);
        assert Value(t[..pos + 1], base, pos, ret) == Value(t[..pos + 1], base, pos + 1, sum) == sum;
      } else {
        GoesOn(s, base, pos, ret, consumed);
        AccumulateStops(s, t, base, pos + 1, sum, true);
      }
    }
  }

  /** On overflow the result is the largest number, or 1 with a minus, and the end position is that of the first
      digit which makes the number too large. */
  lemma OverflowExact(s: string, base: nat)
    requires base == 0 || 2 <= base <= 36
    requires var (b, start) := Prefix(s, base, Number(s)); RunValue(s, b, start) > ULONG_MAX
    ensures
      var (b, start) := Prefix(s, base, Number(s));
      var (ret, end) := Strtoul(s, base);
      && ret == (if Negative(s) then 1 else ULONG_MAX)
      && start < end < RunEnd(s, b, start)
      && Value(s[..end], b, start, 0) <= ULONG_MAX < Value(s[..end + 1], b, start, 0)
  {
    hide Number, Digit, Accumulate;
    var (b, start) := Prefix(s, base, Number(s));
    var t := s[..RunEnd(s, b, start)];
    AccumulateStops(s, t, b, start, 0, false);
    if start < |s| { FirstTaken(s, b, start); }
    var end := Accumulate(s, b, start, 0, false).pos;
    assert t[..end] == s[..end] && t[..end + 1] == s[..end + 1];
  }

  lemma {:induction false} ValueOrder(s: string, base: nat, pos: nat, x: nat, y: nat)
    requires pos <= |s| && Valid(s, base, pos) && base > 0 && x < y
    ensures Value(s, base, pos, x) < Value(s, base, pos, y)
    decreases |s| - pos
  {
    hide Digit;
    if pos < |s| {
      MulOrder(x + 1, y, base);
      assert (x + 1) * base == x * base + base;
      ValueOrder(s, base, pos + 1, x * base + Digit(s[pos]), y * base + Digit(s[pos]));
    }
  }

  lemma NegateOrder(x: nat, y: nat)
    requires x <= ULONG_MAX && y <= ULONG_MAX
    ensures Negate(x) == Negate(y) <==> x == y
  {
  }

  /** The prefix `0X` with a digit behind it, which the program does not know in base 16. */
  predicate CapitalX(s: string, base: nat) {
    base == 16 && HasHexPrefix(s, base, Number(s)) && At(s, Number(s) + 1) == 'X'
  }

  /** The run of digits that the program starts with is the run of the standard, but for the prefix `0X`. */
  lemma SameRun(s: string, base: nat)
    requires (base == 0 || 2 <= base <= 36) && !CapitalX(s, base)
    requires var (b, start) := Prefix(s, base, Number(s)); start < RunEnd(s, b, start)
    ensures
      var (b, start) := Prefix(s, base, Number(s));
      var (b', from) := StandardPrefix(s, base, Number(s));
      from < RunEnd(s, b', from) == RunEnd(s, b, start) && RunValue(s, b', from) == RunValue(s, b, start)
  {
    hide SkipSpaces, Digit, Valid, Value;
    var p := Number(s);
    if p < |s| && s[p] == '0' && Prefix(s, base, p) == (8, p + 1) { ZeroInFront(s, p); }
  }

  /** In base 8 it makes no difference whether the zero counts as a prefix or as a digit. */
  lemma ZeroInFront(s: string, p: nat)
    requires p < |s| && s[p] == '0'
    ensures RunEnd(s, 8, p) == RunEnd(s, 8, p + 1) > p && RunValue(s, 8, p) == RunValue(s, 8, p + 1)
  {
    var t := s[..RunEnd(s, 8, p)];
    assert t[p] == '0' && Digit(t[p]) == 0;
    assert Value(t, 8, p, 0) == Value(t, 8, p + 1, 0 * 8 + Digit(t[p]));
  }

  lemma RunOfZero(s: string, base: nat, p: nat)
    requires p < |s| && s[p] == '0' && base > 0
    ensures RunEnd(s, base, p) == RunEnd(s, base, p + 1) > p
  {
  }

  lemma NothingThere(s: string, base: nat)
    requires Number(s) == |s|
    ensures Strtoul(s, base) == Standard(s, base) == (0, 0) && Readable(s, base)
  {
  }

  /** Without digits behind its prefix, the program reads on where the standard has stopped. */
  lemma NoRun(s: string, base: nat)
    requires (base == 0 || 2 <= base <= 36) && Number(s) < |s|
    requires var (b, start) := Prefix(s, base, Number(s)); start == RunEnd(s, b, start)
    ensures Strtoul(s, base).1 != Standard(s, base).1 && !Readable(s, base)
  {
    hide Digit, SkipSpaces, Accumulate;
    var p := Number(s);
    var (b, start) := Prefix(s, base, p);
    if start < |s| { FirstTaken(s, b, start); }
    NothingReported(s, base);
    RunBefore(s, base);
  }

  lemma RunBefore(s: string, base: nat)
    requires (base == 0 || 2 <= base <= 36) && Number(s) < |s|
    requires var (b, start) := Prefix(s, base, Number(s)); start == RunEnd(s, b, start)
    ensures Standard(s, base).1 <= Start(s, base)
    ensures Start(s, base) == |s| ==> Standard(s, base).1 > 0
  {
    hide Value, Digit, SkipSpaces;
    var p := Number(s);
    var (b, start) := Prefix(s, base, p);
    if s[p] == '0' { RunOfZero(s, StandardPrefix(s, base, p).0, p); }
  }

  /** `0X` is no prefix to the program. */
  lemma CapitalPrefix(s: string)
    requires CapitalX(s, 16)
    ensures
      var p := Number(s);
      && p + 2 < |s| && s[p] == '0' && s[p + 1] == 'X' && Prefix(s, 16, p) == (16, p)
      && StandardPrefix(s, 16, p) == (16, p + 2) && RunEnd(s, 16, p + 2) > p + 2
  {
    hide SkipSpaces, Digit, Valid;
  }

  /** It is read as the digits 0 and 33. */
  lemma CapitalRead(s: string, p: nat)
    requires p + 1 < |s| && s[p] == '0' && s[p + 1] == 'X'
    ensures Accumulate(s, 16, p, 0, false) == Accumulate(s, 16, p + 2, 33, true)
  {
    assert Accumulate(s, 16, p + 1, 0, true) == Accumulate(s, 16, p + 2, 33, true);
  }

  lemma CapitalUnreadable(s: string)
    requires CapitalX(s, 16)
    ensures !Readable(s, 16)
  {
    hide SkipSpaces;
    var p := Number(s);
    var t := s[..p + 1];
    assert RunEnd(s, 16, p + 1) == p + 1 && RunEnd(s, 16, p) == p + 1;
    assert t[p] == '0' && Value(t, 16, p, 0) == Value(t, 16, p + 1, 0) == 0;
  }

  lemma CapitalMissed(s: string, base: nat)
    requires CapitalX(s, base)
    ensures Strtoul(s, base) != Standard(s, base) && !Readable(s, base)
  {
    hide Number, Prefix, RunEnd, Negate, Negative, Accumulate, Value, Readable, Digit, Valid, At;
    var p := Number(s);
    CapitalUnreadable(s);
    CapitalPrefix(s);
    CapitalRead(s, p);
    var e := RunEnd(s, 16, p + 2);
    ReadRun(s, 16, p + 2, e, 33, true);
    ValueOrder(s[..e], 16, p + 2, 0, 33);
    var v, w := Value(s[..e], 16, p + 2, 0), Value(s[..e], 16, p + 2, 33);
    if w <= ULONG_MAX { NegateOrder(v, w); }
    if v <= ULONG_MAX { NegateOrder(v, ULONG_MAX); }
  }

  lemma RunRead(s: string, base: nat)
    requires (base == 0 || 2 <= base <= 36) && !CapitalX(s, base)
    requires var (b, start) := Prefix(s, base, Number(s)); start < RunEnd(s, b, start)
    ensures Strtoul(s, base) == Standard(s, base) <==> Readable(s, base)
  {
    var (b, start) := Prefix(s, base, Number(s));
    var e, v := RunEnd(s, b, start), RunValue(s, b, start);
    SameRun(s, base);
    ReadRun(s, b, start, e, 0, false);
    if v <= ULONG_MAX { NegateOrder(v, ULONG_MAX); }
  }

  /** For every string and every base of the standard: the program does what the standard asks for if and only
      if the string is readable. */
  lemma StrtoulExact(s: string, base: nat)
    requires base == 0 || 2 <= base <= 36
    ensures Strtoul(s, base) == Standard(s, base) <==> Readable(s, base)
  {
    hide Number, Prefix, RunEnd, RunValue, Standard, Readable, Strtoul, CapitalX;
    var (b, start) := Prefix(s, base, Number(s));
    if Number(s) == |s| {
      NothingThere(s, base);
    } else if start == RunEnd(s, b, start) {
      NoRun(s, base);
    } else if CapitalX(s, base) {
      CapitalMissed(s, base);
    } else {
      RunRead(s, base);
    }
  }

  /** A zero is taken for a prefix. */
  lemma LoneZero()
    ensures Standard("0", 0) == (0, 1) && Strtoul("0", 0) == (0, 0)
  {
  }

  /** What follows a number is read as digits, too. */
  lemma ReadsOn()
    ensures Standard("12 4", 10) == (12, 2) && Strtoul("12 4", 10) == (ULONG_MAX, 2)
  {
    var s := "12 4";
    assert Number(s) == 0 && Accumulate(s, 10, 2, 12, true) == Parsed(ULONG_MAX, 2, true);
    assert Accumulate(s, 10, 1, 1, true) == Accumulate(s, 10, 2, 12, true);
    assert RunEnd(s, 10, 1) == RunEnd(s, 10, 2) == 2 && s[..2] == "12";
    assert Value("12", 10, 1, 1) == 12;
  }

  // ---- the printer ---------------------------------------------------------------------------

  /** The digits of `v`, most significant first. */
  function Digits(v: nat, base: nat): (s: string)
    requires 2 <= base <= 36
    ensures s != []
  {
    if v < base then [DigitChar(v)] else Digits(v / base, base) + [DigitChar(v % base)]
  }

  function Reverse(s: string): string {
    if s == [] then [] else Reverse(s[1..]) + [s[0]]
  }

  lemma {:induction false} ReverseAt(s: string, i: nat)
    requires i < |s|
    ensures |Reverse(s)| == |s| && Reverse(s)[i] == s[|s| - 1 - i]
  {
    if |s| > 1 { ReverseAt(s[1..], if i < |s| - 1 then i else 0); }
  }

  lemma {:induction false} ReverseConcat(s: string, t: string)
    ensures Reverse(s + t) == Reverse(t) + Reverse(s)
  {
    if s == [] {
      assert s + t == t;
    } else {
      assert (s + t)[1..] == s[1..] + t;
      ReverseConcat(s[1..], t);
    }
  }

  lemma Mirrored(s: string, t: string)
    requires |s| == |t| && forall k :: 0 <= k < |s| ==> t[k] == s[|s| - 1 - k]
    ensures t == Reverse(s)
  {
    ReverseLength(s);
    forall k: nat | k < |s| ensures t[k] == Reverse(s)[k] {
      ReverseAt(s, k);
    }
  }

  /** Reversing in place (src/stdlib.c:72-77). */
  method ReverseInPlace(str: array<char>, from: nat, end: nat)
    requires from <= end <= str.Length
    modifies str
    ensures str[from..end] == Reverse(old(str[from..end]))
    ensures forall k :: 0 <= k < str.Length && !(from <= k < end) ==> str[k] == old(str[k])
  {
    hide Reverse;
    var start, ptr := from, end - 1;
    while start < ptr
      invariant from <= start <= ptr + 2 && ptr == from + end - 1 - start && ptr < end
      invariant forall k :: from <= k < start ==> str[k] == old(str[from + end - 1 - k])
      invariant forall k :: ptr < k < end ==> str[k] == old(str[from + end - 1 - k])
      invariant forall k :: start <= k <= ptr ==> str[k] == old(str[k])
      invariant forall k :: 0 <= k < str.Length && !(from <= k < end) ==> str[k] == old(str[k])
    {
      str[ptr], str[start] := str[start], str[ptr];
      ptr, start := ptr - 1, start + 1;
    }
    ghost var was, now := old(str[from..end]), str[from..end];
    forall k | 0 <= k < |now| ensures now[k] == was[|was| - 1 - k] {
      assert now[k] == str[from + k] == old(str[from + end - 1 - (from + k)]) == was[|was| - 1 - k];
    }
    Mirrored(was, now);
  }

  lemma Quotient(v: nat, base: nat)
    requires base >= 2
    ensures v == v / base * base + v % base && (v > 0 ==> v / base < v) && (v / base == 0 <==> v < base)
  {
    var q := v / base;
    assert v == base * q + v % base;
    if q > 0 { assert base * q >= 2 * q; }
  }

  /** What remains to be written, with what has been written backwards. */
  lemma LastDigit(v: nat, base: nat, before: string)
    requires 2 <= base <= 36
    ensures
      var now := Reverse(before + [DigitChar(v % base)]);
      Digits(v, base) + Reverse(before) == if v / base != 0 then Digits(v / base, base) + now else now
  {
    var c := DigitChar(v % base);
    ReverseConcat(before, [c]);
    Quotient(v, base);
    assert Reverse([c]) == [c];
    if v < base { assert v % base == v; }
  }

  /** The first loop of `ulltoa` (src/stdlib.c:63-68): the digits, least significant first. */
  method WriteBackwards(value: nat, str: array<char>, at: nat, base: nat) returns (ptr: nat)
    requires 2 <= base <= 36 && at + |Digits(value, base)| < str.Length
    modifies str
    ensures ptr == at + |Digits(value, base)| && Reverse(str[at..ptr]) == Digits(value, base)
    ensures forall k :: 0 <= k < str.Length && !(at <= k < ptr) ==> str[k] == old(str[k])
  {
    hide Digits, Reverse, DigitChar;
    ghost var all := Digits(value, base);
    var v: nat := value;
    var more := true;
    ptr := at;
    Nothing(all, str[at..at]);
    while more
      invariant at <= ptr <= at + |all| && (more ==> ptr < at + |all|)
      invariant more ==> all == Digits(v, base) + Reverse(str[at..ptr])
      invariant !more ==> all == Reverse(str[at..ptr])
      invariant forall k :: 0 <= k < str.Length && !(at <= k < ptr) ==> str[k] == old(str[k])
      decreases more, v
    {
      Quotient(v, base);
      ghost var before := str[at..ptr];
      LastDigit(v, base, before);
      var r := v % base;
      v := v / base;
      str[ptr] := DigitChar(r);
      ptr := ptr + 1;
      more := v != 0;
      assert str[at..ptr] == before + [DigitChar(r)];
      ReverseLength(str[at..ptr]);
    }
    ReverseLength(str[at..ptr]);
  }

  lemma Nothing(all: string, before: string)
    requires before == []
    ensures all == all + Reverse(before)
  {
  }

  /** `ulltoa` (src/stdlib.c:57-80), into a buffer with room for the digits and the terminating zero. */
  method Ulltoa(value: nat, str: array<char>, at: nat, base: nat)
    requires 2 <= base <= 36 && at + |Digits(value, base)| < str.Length
    modifies str
    ensures str[at..at + |Digits(value, base)|] == Digits(value, base)
    ensures str[at + |Digits(value, base)|] == '\0'
    ensures forall k :: 0 <= k < str.Length && !(at <= k <= at + |Digits(value, base)|) ==> str[k] == old(str[k])
  {
    hide Digits, Reverse;
    var ptr := WriteBackwards(value, str, at, base);
    ghost var written := str[at..ptr];
    str[ptr] := '\0';
    assert str[at..ptr] == written;
    ReverseInPlace(str, at, ptr);
  }

  lemma ReverseLength(s: string)
    ensures |Reverse(s)| == |s|
  {
    if s != [] { ReverseAt(s, 0); }
  }

  /** `lltoa` (src/stdlib.c:82-94); negating the smallest value is undefined. */
  function Signed(v: int, base: nat): string
    requires 2 <= base <= 36
  {
    if v < 0 then "-" + Digits(-v, base) else Digits(v, base)
  }

  method Lltoa(value: int, str: array<char>, base: nat)
    requires 2 <= base <= 36 && |Signed(value, base)| < str.Length
    requires -0x8000_0000_0000_0000 < value <= 0x7fff_ffff_ffff_ffff
    modifies str
    ensures str[..|Signed(value, base)|] == Signed(value, base) && str[|Signed(value, base)|] == '\0'
    ensures forall k :: |Signed(value, base)| < k < str.Length ==> str[k] == old(str[k])
  {
    var ptr, v := 0, value;
    if v < 0 {
      str[ptr] := '-';
      ptr := ptr + 1;
      v := -v;
    }
    Ulltoa(v, str, ptr, base);
    assert str[..|Signed(value, base)|] == str[..ptr] + str[ptr..|Signed(value, base)|];
  }

  // ---- round trips ---------------------------------------------------------------------------

  lemma {:induction false} ValueConcat(s: string, c: char, base: nat, pos: nat, ret: nat)
    requires pos <= |s| && Valid(s + [c], base, pos)
    ensures Valid(s, base, pos) && Value(s + [c], base, pos, ret) == Value(s, base, pos, ret) * base + Digit(c)
    decreases |s| - pos
  {
    assert forall i :: pos <= i < |s| ==> (s + [c])[i] == s[i];
    if pos < |s| {
      ValueConcat(s, c, base, pos + 1, ret * base + Digit(s[pos]));
    } else {
      assert (s + [c])[pos] == c;
    }
  }

  lemma OneDigitMore(s: string, c: char, base: nat, q: nat, r: nat)
    requires DigitString(s, base) && Value(s, base, 0, 0) == q && Digit(c) == r < base
    requires !IsSpace(c) && c != '-' && c != '+'
    ensures DigitString(s + [c], base) && Value(s + [c], base, 0, 0) == q * base + r
  {
    ValueConcat(s, c, base, 0, 0);
  }

  /** The digits of a number are digits, and their value is the number. */
  lemma {:induction false} DigitsValue(v: nat, base: nat)
    requires 2 <= base <= 36
    ensures DigitString(Digits(v, base), base) && Value(Digits(v, base), base, 0, 0) == v
    decreases v
  {
    Quotient(v, base);
    if v < base {
      DigitRoundTrip(v);
    } else {
      var q, r := v / base, v % base;
      DigitsValue(q, base);
      DigitRoundTrip(r);
      OneDigitMore(Digits(q, base), DigitChar(r), base, q, r);
    }
  }

  /** The printed form has decimal digits and small letters only, and no zero in front. */
  predicate Canonical(s: string, base: nat) {
    && s != [] && (forall i :: 0 <= i < |s| ==> ('0' <= s[i] <= '9' || 'a' <= s[i] <= 'z') && Digit(s[i]) < base)
    && (s[0] == '0' ==> |s| == 1)
  }

  lemma {:induction false} DigitsCanonical(v: nat, base: nat)
    requires 2 <= base <= 36
    ensures Canonical(Digits(v, base), base) && (v > 0 ==> Digits(v, base)[0] != '0')
    decreases v
  {
    Quotient(v, base);
    if v >= base { DigitsCanonical(v / base, base); }
  }

  lemma CanonicalDigit(c: char, base: nat)
    requires ('0' <= c <= '9' || 'a' <= c <= 'z') && Digit(c) < base <= 36
    ensures 0 <= Digit(c) && DigitChar(Digit(c)) == c
  {
  }

  lemma CanonicalParts(s: string, base: nat)
    requires Canonical(s, base)
    ensures s != []
    ensures forall i :: 0 <= i < |s| ==> ('0' <= s[i] <= '9' || 'a' <= s[i] <= 'z') && Digit(s[i]) < base
    ensures |s| > 1 ==> Canonical(s[..|s| - 1], base) && s[0] != '0'
  {
  }

  /** A number has one such form only: what is printed is determined by what it means. */
  lemma {:induction false} DigitsUnique(s: string, base: nat)
    requires 2 <= base <= 36 && Canonical(s, base)
    ensures Valid(s, base, 0) && s == Digits(Value(s, base, 0, 0), base) && (s[0] != '0' ==> Value(s, base, 0, 0) > 0)
    decreases |s|
  {
    hide Digit, DigitChar, Digits, Canonical;
    CanonicalParts(s, base);
    var t, c := s[..|s| - 1], s[|s| - 1];
    assert s == t + [c];
    forall i | 0 <= i < |s| ensures 0 <= Digit(s[i]) < base { CanonicalDigit(s[i], base); }
    CanonicalDigit(c, base);
    ValueConcat(t, c, base, 0, 0);
    if t == [] {
      ZeroChar(c, base);
      assert Value(s, base, 0, 0) == Value(s, base, 1, Digit(c)) == Digit(c);
      DigitsLast(0, c, base);
    } else {
      DigitsUnique(t, base);
      DigitsLast(Value(t, base, 0, 0), c, base);
    }
  }

  lemma DigitsLast(q: nat, c: char, base: nat)
    requires 2 <= base <= 36 && 0 <= Digit(c) < base && DigitChar(Digit(c)) == c
    ensures
      var v := q * base + Digit(c);
      Digits(v, base) == (if q > 0 then Digits(q, base) else []) + [c] && (q > 0 ==> v > 0)
  {
    hide Digit, DigitChar;
    DivUnique(q, Digit(c), base);
    if q > 0 { MulMonotone(1, q, base); }
  }

  lemma ZeroChar(c: char, base: nat)
    requires ('0' <= c <= '9' || 'a' <= c <= 'z') && Digit(c) < base <= 36
    ensures Digit(c) == 0 <==> c == '0'
  {
  }

  /** `strtoul` undoes `ulltoa` for every 64-bit number in every base, and reads all of it. */
  lemma RoundTrip(v: nat, base: nat)
    requires v <= ULONG_MAX && 2 <= base <= 36
    ensures Strtoul(Digits(v, base), base) == (v, if base == 8 && v == 0 then 0 else |Digits(v, base)|)
  {
    DigitsValue(v, base);
    DigitsRead(Digits(v, base), base);
    if base == 8 && v != 0 { assert Digits(v, base) != "0"; }
  }

  lemma Minus(s: string, base: nat)
    ensures
      var t := "-" + s;
      var (b, start) := Prefix(t, base, 1);
      Strtoul(t, base).0 == Negate(Accumulate(t, b, start, 0, false).ret)
  {
    hide Accumulate, Prefix;
  }

  lemma Negated(s: string, base: nat, v: nat)
    requires DigitString(s, base) && Value(s, base, 0, 0) == v && 0 < v <= ULONG_MAX
    ensures Strtoul("-" + s, base).0 == WORD - v
  {
    hide Value, Accumulate, Digit, Strtoul, Prefix, IsSpace;
    var t := "-" + s;
    ValueShift(s, t, base, 0, 0);
    Minus(s, base);
    PrefixKeepsValue(t, base, 1);
    hide Valid, DigitString;
    var start := Prefix(t, base, 1).1;
    AccumulateExact(t, t, base, start, 0, false);
    Ends(t, base, v, start < |t|);
  }

  /** And `lltoa`, modulo 2^64. */
  lemma SignedRoundTrip(v: int, base: nat)
    requires -0x8000_0000_0000_0000 < v <= 0x7fff_ffff_ffff_ffff && 2 <= base <= 36
    ensures Strtoul(Signed(v, base), base).0 == v % WORD
  {
    hide Strtoul, Digits, Value, Valid, Digit;
    if v >= 0 {
      RoundTrip(v, base);
    } else {
      DigitsValue(-v, base);
      Negated(Digits(-v, base), base, -v);
    }
  }

  lemma {:induction false} ValueShift(s: string, t: string, base: nat, pos: nat, ret: nat)
    requires |t| == |s| + 1 && (forall i :: 0 <= i < |s| ==> t[i + 1] == s[i]) && pos <= |s| && Valid(s, base, pos)
    ensures Valid(t, base, pos + 1) && Value(t, base, pos + 1, ret) == Value(s, base, pos, ret)
    decreases |s| - pos
  {
    forall i | pos + 1 <= i < |t| ensures 0 <= Digit(t[i]) < base {
      assert t[i] == s[i - 1];
    }
    if pos < |s| {
      assert t[pos + 1] == s[pos];
      ValueShift(s, t, base, pos + 1, ret * base + Digit(s[pos]));
    }
  }
}
