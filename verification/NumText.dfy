/** The number parsers and formatters of include/parser.h. */
module NumText {
  import opened Machine
  import opened Bytes


  predicate IsDigit(b: byte) { 48 <= b <= 57 }

  predicate IsWs(b: byte) { b == NL || b == CR || b == SPACE || b == TAB }

  predicate AllDigits(s: seq<byte>) { forall i :: 0 <= i < |s| ==> IsDigit(s[i]) }

  /** The decimal digits of n, without leading zeros. */
  function Digits(n: nat): (s: seq<byte>)
    ensures AllDigits(s) && |s| >= 1
  {
    if n < 10 then [ZERO + n] else Digits(n / 10) + [ZERO + n % 10]
  }

  /** Reading the digits ds after the value v: v * 10^|ds| + ds. */
  function Horner(v: nat, ds: seq<byte>): nat
    requires AllDigits(ds)
    decreases ds
  {
    if ds == [] then v else Horner(v * 10 + (ds[0] - ZERO), ds[1..])
  }

  /** Length of the leading digit run. */
  function DigitLen(s: seq<byte>): (n: nat)
    ensures n <= |s| && AllDigits(s[..n]) && (n < |s| ==> !IsDigit(s[n]))
  {
    if s == [] || !IsDigit(s[0]) then 0
    else
      var n := DigitLen(s[1..]);
      assert s[..n + 1] == [s[0]] + s[1..][..n];
      n + 1
  }

  /** The leading digit run. */
  function DigitRun(s: seq<byte>): (run: seq<byte>)
    ensures AllDigits(run) && |run| == DigitLen(s)
  {
    s[..DigitLen(s)]
  }

  function Pow10(n: nat): (p: nat)
    ensures p >= 1
  {
    if n == 0 then 1 else 10 * Pow10(n - 1)
  }

  // ----- reading back what was written

  lemma {:induction false} HornerAppend(v: nat, ds: seq<byte>, d: byte)
    requires AllDigits(ds) && IsDigit(d)
    ensures Horner(v, ds + [d]) == Horner(v, ds) * 10 + (d - ZERO)
    decreases ds
  {
    if ds == [] {
      assert ds + [d] == [d];
      assert [d][1..] == [];
    } else {
      assert (ds + [d])[1..] == ds[1..] + [d];
      HornerAppend(v * 10 + (ds[0] - ZERO), ds[1..], d);
    }
  }

  lemma {:induction false} HornerGrows(v: nat, ds: seq<byte>)
    requires AllDigits(ds)
    ensures Horner(v, ds) >= v
    ensures ds != [] ==> Horner(v, ds) >= v * 10 + (ds[0] - ZERO)
    decreases ds
  {
    if ds != [] {
      HornerGrows(v * 10 + (ds[0] - ZERO), ds[1..]);
    }
  }

  lemma {:induction false} ValueOfDigits(n: nat)
    ensures Horner(0, Digits(n)) == n
  {
    if n < 10 {
      assert Digits(n)[1..] == [];
    } else {
      ValueOfDigits(n / 10);
      HornerAppend(0, Digits(n / 10), ZERO + n % 10);
    }
  }

  lemma {:induction false} DigitsShort(n: nat, k: nat)
    requires 0 < k && n < Pow10(k)
    ensures |Digits(n)| <= k
  {
    if n >= 10 {
      assert k > 1;
      DigitsShort(n / 10, k - 1);
    }
  }

  lemma U64IsShort(k: nat)
    requires k == 20
    ensures TWO64 <= Pow10(k)
  {
    var five, ten := 5, 10;
    assert Pow10(five) == 100_000;
    Pow10Add(five, five, ten);
    Pow10Add(ten, ten, k);
  }

  lemma U32IsShort(k: nat)
    requires k == 10
    ensures TWO32 <= Pow10(k)
  {
    var five := 5;
    assert Pow10(five) == 100_000;
    Pow10Add(five, five, k);
  }

  lemma LessRoom(v: nat, k: nat)
    requires 0 < v < Pow10(k)
    ensures 0 < k && v / 10 < Pow10(k - 1)
  {
  }

  lemma {:induction false} Pow10Add(m: nat, n: nat, s: nat)
    requires s == m + n
    ensures Pow10(s) == Pow10(m) * Pow10(n)
  {
    if m > 0 {
      Pow10Add(m - 1, n, s - 1);
      assert 10 * (Pow10(m - 1) * Pow10(n)) == (10 * Pow10(m - 1)) * Pow10(n);
    }
  }

  lemma DigitLenOfRun(ds: seq<byte>, rest: seq<byte>)
    requires AllDigits(ds) && (rest == [] || !IsDigit(rest[0]))
    ensures DigitLen(ds + rest) == |ds|
  {
    if ds == [] {
      assert ds + rest == rest;
    } else {
      assert (ds + rest)[1..] == ds[1..] + rest;
      DigitLenOfRun(ds[1..], rest);
    }
  }

  // ----- formatting

  /** The digits still to be written: none once the value is used up. */
  function Pending(v: nat): seq<byte> { if v > 0 then Digits(v) else [] }

  lemma PendingStep(v: nat)
    requires 0 < v
    ensures Pending(v) == Pending(v / 10) + [ZERO + v % 10]
  {
    if v < 10 {
      assert Pending(v / 10) == [];
    }
  }

  lemma PendingShift(v: nat, done: seq<byte>)
    requires 0 < v
    ensures Pending(v) + done == Pending(v / 10) + ([ZERO + v % 10] + done)
  {
    PendingStep(v);
    assert (Pending(v / 10) + [ZERO + v % 10]) + done == Pending(v / 10) + ([ZERO + v % 10] + done);
  }

  /** Digits from the right, as both formatters produce them: tmp[p..end] after the loop. */
  method FmtDigits(val: u64, tmp: array<byte>, end: nat, ghost width: nat) returns (p: nat)
    requires 0 < val < Pow10(width) && width <= end <= tmp.Length
    modifies tmp
    ensures p <= end && tmp[p..end] == Digits(val)
    ensures tmp[end..] == old(tmp[end..])
  {
    hide Digits, Pow10, Pending;
    ghost var text := Pending(val);
    PendingEnds(val);
    p := end;
    var v: u64 := val;
    assert text == Pending(v) + tmp[p..end];
    while v > 0
      invariant p <= end <= p + width && v < Pow10(width + p - end)
      invariant tmp[end..] == old(tmp[end..])
      invariant text == Pending(v) + tmp[p..end]
      decreases v
    {
      ghost var done := tmp[p..end];
      PendingShift(v, done);
      LessRoom(v, width + p - end);
      p := p - 1;
      tmp[p] := ZERO + v % 10;
      Prepended(tmp, p, end);
      v := v / 10;
    }
    assert Pending(0) + tmp[p..end] == tmp[p..end];
  }

  lemma Prepended(a: array<byte>, p: nat, end: nat)
    requires p < end <= a.Length
    ensures a[p..end] == [a[p]] + a[p + 1..end]
  {
  }

  lemma PendingEnds(val: nat)
    requires 0 < val
    ensures Pending(0) == [] && Pending(val) == Digits(val)
  {
  }

  lemma WordsAreShort(val: u64)
    ensures |Digits(val)| <= 20 && (val < TWO32 ==> |Digits(val)| <= 10)
  {
    var short, long := 10, 20;
    U32IsShort(short);
    U64IsShort(long);
    DigitsShort(val, long);
    if val < TWO32 {
      DigitsShort(val, short);
    }
  }

  /** pg_fmt_u64: the decimal text of val and a newline, in a buffer with room for it. */
  method FmtU64(val: u64, buf: array<byte>) returns (len: nat)
    requires |Digits(val)| < buf.Length
    modifies buf
    ensures len == |Digits(val)| + 1 <= 21 && buf[..len] == Digits(val) + [NL]
    ensures buf[len..] == old(buf[len..])
  {
    if val == 0 {
      buf[0], buf[1] := ZERO, NL;
      assert buf[..2] == [ZERO, NL];
      return 2;
    }
    hide Digits, Pow10;
    var tmp := new byte[32](_ => 0);
    tmp[31] := NL;
    ghost var width := 20;
    U64IsShort(width);
    var p := FmtDigits(val, tmp, 31, width);
    len := 31 - p + 1;
    assert tmp[31..][0] == NL;
    assert tmp[p..p + len] == Digits(val) + [NL];
    WordsAreShort(val);
    CopyOut(tmp, p, buf, len);
  }

  /** pg_fmt_u32: the decimal text of val, no newline. Sixteen bytes of scratch are enough. */
  method FmtU32(val: u32, buf: array<byte>) returns (len: nat)
    requires |Digits(val)| <= buf.Length
    modifies buf
    ensures len == |Digits(val)| <= 10 && buf[..len] == Digits(val)
    ensures buf[len..] == old(buf[len..])
  {
    if val == 0 {
      buf[0] := ZERO;
      assert buf[..1] == [ZERO];
      return 1;
    }
    hide Digits, Pow10;
    var tmp := new byte[16](_ => 0);
    ghost var width := 10;
    U32IsShort(width);
    var p := FmtDigits(val, tmp, 16, width);
    len := 16 - p;
    assert tmp[p..p + len] == Digits(val);
    WordsAreShort(val);
    CopyOut(tmp, p, buf, len);
  }

  /** The copy loop both formatters end with. */
  method CopyOut(tmp: array<byte>, p: nat, buf: array<byte>, len: nat)
    requires p + len <= tmp.Length && len <= buf.Length && buf != tmp
    modifies buf
    ensures buf[..len] == tmp[p..p + len] && buf[len..] == old(buf[len..])
  {
    for i := 0 to len
      invariant buf[..i] == tmp[p..p + i]
      invariant buf[len..] == old(buf[len..])
    {
      buf[i] := tmp[p + i];
    }
  }

  // ----- pg_parse_u64

  /** What the accumulator of pg_parse_u64 makes of a digit run: it stops growing only past 2^64 / 10,
      so a run above 2^64 - 1 can wrap. */
  function FoldU64(v: u64, ds: seq<byte>): u64
    requires AllDigits(ds)
    decreases ds
  {
    if ds == [] then v
    else FoldU64(if v <= 1844674407370955161 then U64(v * 10 + (ds[0] - ZERO)) else v, ds[1..])
  }

  lemma {:induction false} FoldExact(v: u64, ds: seq<byte>)
    requires AllDigits(ds) && Horner(v, ds) <= U64_MAX
    ensures FoldU64(v, ds) == Horner(v, ds)
    decreases ds
  {
    if ds != [] {
      HornerGrows(v, ds);
      FoldExact(v * 10 + (ds[0] - ZERO), ds[1..]);
    }
  }

  /** The text of 2^64 reads as 0: above 2^64 - 1 the parser neither saturates nor stops. */
  lemma FoldWraps()
    ensures FoldU64(0, Digits(TWO64 / 10) + [ZERO + TWO64 % 10]) == 0
    ensures Horner(0, Digits(TWO64 / 10) + [ZERO + TWO64 % 10]) == TWO64
  {
    var head, d := Digits(TWO64 / 10), ZERO + TWO64 % 10;
    ValueOfDigits(TWO64 / 10);
    HornerAppend(0, head, d);
    FoldExact(0, head);
    FoldAppend(0, head, d);
  }

  lemma {:induction false} FoldAppend(v: u64, ds: seq<byte>, d: byte)
    requires AllDigits(ds) && IsDigit(d)
    ensures FoldU64(v, ds + [d]) == FoldU64(FoldU64(v, ds), [d])
    decreases ds
  {
    if ds == [] {
      assert ds + [d] == [d];
    } else {
      assert (ds + [d])[1..] == ds[1..] + [d];
      FoldAppend(if v <= 1844674407370955161 then U64(v * 10 + (ds[0] - ZERO)) else v, ds[1..], d);
    }
  }

  /** Reads the digit run at start. The value is exact if and only if the run fits 64 bits. */
  method ParseU64(buf: array<byte>, len: nat, start: nat) returns (val: u64, next: nat)
    requires start <= len <= buf.Length
    ensures next == start + DigitLen(buf[start..len])
    ensures val == FoldU64(0, DigitRun(buf[start..len]))
    ensures val == Horner(0, DigitRun(buf[start..len])) <==> Horner(0, DigitRun(buf[start..len])) <= U64_MAX
  {
    hide Horner, U64;
    var pos := start;
    val := 0;
    ghost var run := DigitRun(buf[start..len]);
    assert run[0..] == run;
    while pos < len
      invariant start <= pos <= start + |run| <= len
      invariant FoldU64(val, run[pos - start..]) == FoldU64(0, run)
    {
      var b := buf[pos];
      ghost var i := pos - start;
      assert b == buf[start..len][i];
      if b < 48 || b > 57 {
        break;
      }
      assert i < |run| && b == run[i];
      assert run[i..][1..] == run[i + 1..];
      if val <= 1844674407370955161 {
        val := U64(val * 10 + (b - ZERO));
      }
      pos := pos + 1;
    }
    assert pos == start + |run|;
    next := pos;
    if Horner(0, run) <= U64_MAX {
      FoldExact(0, run);
    }
  }

  /** pg_parse_u64 inverts pg_fmt_u64 for every 64-bit value, and stops at the newline. */
  method RoundTripU64(val: u64) returns (back: u64, next: nat)
    ensures back == val && next == |Digits(val)|
  {
    var buf := new byte[32](_ => 0);
    WordsAreShort(val);
    var len := FmtU64(val, buf);
    back, next := ParseU64(buf, len, 0);
    assert buf[0..len] == buf[..len];
    ReadDigits(val, [NL]);
  }

  /** The digit run at the head of a printed number is that number. */
  lemma ReadDigits(n: nat, rest: seq<byte>)
    requires rest == [] || !IsDigit(rest[0])
    ensures DigitRun(Digits(n) + rest) == Digits(n) && DigitLen(Digits(n) + rest) == |Digits(n)|
    ensures Horner(0, DigitRun(Digits(n) + rest)) == n
  {
    DigitLenOfRun(Digits(n), rest);
    ValueOfDigits(n);
    assert (Digits(n) + rest)[..|Digits(n)|] == Digits(n);
  }

  // ----- pg_parse_i32

  predicate IsLead(b: byte) { b == MINUS || IsWs(b) }

  /** Length of the leading run of blanks and minus signs. */
  function LeadLen(s: seq<byte>): (n: nat)
    ensures n <= |s| && (forall i :: 0 <= i < n ==> IsLead(s[i])) && (n < |s| ==> !IsLead(s[n]))
  {
    if s == [] || !IsLead(s[0]) then 0 else 1 + LeadLen(s[1..])
  }

  function Saturate(x: int): i32 {
    if x > I32_MAX then I32_MAX else if x < I32_MIN then I32_MIN else x
  }

  datatype Parsed = Invalid | Valid(value: i32)

  /** Reference: blanks and signs, a digit run, then a blank or the end. The value of the run is taken
      exactly, whatever its length, negated if a minus sign came first, and saturated to 32 bits. */
  function SpecI32(s: seq<byte>): Parsed {
    var a := LeadLen(s);
    var run := DigitRun(s[a..]);
    var end := a + |run|;
    if run == [] || (end < |s| && !IsWs(s[end])) then Invalid
    else Valid(Saturate((if MINUS in s[..a] then -1 else 1) * Horner(0, run)))
  }

  /** The state of the scan before byte i: still in the lead, or inside the digit run, where the
      accumulator holds the exact value until both are past 2^31. */
  ghost predicate Scan(s: seq<byte>, i: nat, val: int, sign: int, valid: bool) {
    var a := LeadLen(s);
    var run := DigitRun(s[a..]);
    && i <= |s|
    && 0 <= val <= 21_474_836_489
    && sign == (if MINUS in s[..(if valid then a else i)] then -1 else 1)
    && if !valid then i <= a && val == 0
       else
         && a < i <= a + |run|
         && var exact := Horner(0, run[..i - a]); val == exact || (val > TWO31 && exact > TWO31)
  }

  lemma ScanDigit(s: seq<byte>, i: nat, val: int, sign: int, valid: bool)
    requires Scan(s, i, val, sign, valid) && i < |s| && IsDigit(s[i])
    ensures Scan(s, i + 1, if val <= 2147483648 then val * 10 + (s[i] - ZERO) else val, sign, true)
  {
    var a := LeadLen(s);
    var run := DigitRun(s[a..]);
    assert valid ==> i < |s| ==> s[i] == s[a..][i - a];
    assert !valid ==> i == a;
    assert i - a < |run| && run[i - a] == s[i];
    assert run[..i - a + 1] == run[..i - a] + [s[i]];
    HornerAppend(0, run[..i - a], s[i]);
  }

  lemma ScanLead(s: seq<byte>, i: nat, val: int, sign: int)
    requires Scan(s, i, val, sign, false) && i < |s| && IsLead(s[i])
    ensures Scan(s, i + 1, val, if s[i] == MINUS then -1 else sign, false)
  {
    assert s[..i + 1] == s[..i] + [s[i]];
  }

  /** A byte that is neither a digit nor part of the lead ends the scan. */
  lemma ScanStop(s: seq<byte>, i: nat, val: int, sign: int, valid: bool)
    requires Scan(s, i, val, sign, valid)
    requires i < |s| ==> !IsDigit(s[i]) && (valid || !IsLead(s[i]))
    ensures valid && (i == |s| || IsWs(s[i])) ==> SpecI32(s) == Valid(Saturate(sign * val))
    ensures !valid || (i < |s| && !IsWs(s[i])) ==> SpecI32(s) == Invalid
  {
    var a := LeadLen(s);
    var run := DigitRun(s[a..]);
    if valid {
      assert i < |s| ==> s[i] == s[a..][i - a];
      assert i == a + |run|;
      assert run[..i - a] == run;
    } else {
      assert i == a;
      assert i < |s| ==> s[a..][0] == s[i];
    }
  }

  method ParseI32(buf: array<byte>, len: nat) returns (value: i32, valid: bool)
    requires len <= buf.Length
    ensures SpecI32(buf[..len]) == if valid then Valid(value) else Invalid
    ensures !valid ==> value == 0
  {
    hide Scan, SpecI32;
    var val: u64 := 0;
    var sign := 1;
    valid := false;
    ghost var s := buf[..len];
    ScanStart(s);
    var i := 0;
    while i < len
      invariant i <= len && Scan(s, i, val, sign, valid)
      invariant !valid ==> val == 0
    {
      var b := buf[i];
      assert b == s[i];
      ScanBound(s, i, val, sign, valid);
      if b >= 48 && b <= 57 {
        ScanDigit(s, i, val, sign, valid);
        if val <= 2147483648 {
          val := val * 10 + (b - ZERO);
        }
        valid := true;
        i := i + 1;
        continue;
      }
      if b == MINUS && !valid {
        ScanLead(s, i, val, sign);
        sign := -1;
        i := i + 1;
        continue;
      }
      if b == NL || b == CR || b == SPACE || b == TAB {
        if valid {
          break;
        }
        ScanLead(s, i, val, sign);
        i := i + 1;
        continue;
      }
      ScanStop(s, i, val, sign, valid);
      valid := false;
      return 0, valid;
    }
    ScanStop(s, i, val, sign, valid);
    ScanBound(s, i, val, sign, valid);
    var res: i64 := val * sign;
    value := if res > I32_MAX then I32_MAX else if res < I32_MIN then I32_MIN else res;
  }

  lemma ScanStart(s: seq<byte>)
    ensures Scan(s, 0, 0, 1, false)
  {
  }

  lemma ScanBound(s: seq<byte>, i: nat, val: int, sign: int, valid: bool)
    requires Scan(s, i, val, sign, valid)
    ensures 0 <= val <= 21_474_836_489 && (sign == 1 || sign == -1)
  {
  }

  /** The text of an integer as the kernel prints it. */
  function Text(v: int): seq<byte> {
    (if v < 0 then [MINUS] else []) + Digits(Abs(v)) + [NL]
  }

  /** Reading back a printed integer gives it, saturated to 32 bits. */
  lemma ReadBack(v: int)
    ensures SpecI32(Text(v)) == Valid(Saturate(v))
  {
    var s: seq<byte> := Text(v);
    var m := Abs(v);
    var ds := Digits(m);
    assert s == (if v < 0 then [MINUS] else []) + ds + [NL];
    var a := if v < 0 then 1 else 0;
    assert s[a..] == ds + [NL];
    assert LeadLen(s) == a by {
      if v < 0 {
        assert LeadLen(s[1..]) == 0;
      }
    }
    ReadDigits(m, [NL]);
  }

  /** Blanks, line ends and minus signs. */
  predicate AllLead(s: seq<byte>) {
    forall i :: 0 <= i < |s| ==> s[i] == 32 || s[i] == 9 || s[i] == 10 || s[i] == 13 || s[i] == 45
  }

  lemma {:induction false} LeadIs(lead: seq<byte>, rest: seq<byte>)
    requires AllLead(lead) && (rest == [] || !AllLead(rest[..1]))
    ensures LeadLen(lead + rest) == |lead|
    decreases |lead|
  {
    if lead == [] {
      assert lead + rest == rest;
      assert rest != [] ==> rest[..1] == [rest[0]];
    } else {
      assert (lead + rest)[1..] == lead[1..] + rest;
      LeadIs(lead[1..], rest);
    }
  }

  lemma NoLead(d: byte)
    requires IsDigit(d)
    ensures !AllLead([d])
  {
    assert [d][0] == d;
  }

  /** What a text reads as, told from its parts: any lead, the digits of a number, then a blank, a line end or nothing
      give the number, negated by a minus sign in the lead and cut to 32 bits; anything else behind the digits is
      invalid. */
  lemma ReadParts(lead: seq<byte>, m: nat, tail: seq<byte>)
    requires AllLead(lead) && (tail == [] || !IsDigit(tail[0]))
    ensures SpecI32(lead + Digits(m) + tail) ==
            if tail == [] || tail[0] == 32 || tail[0] == 9 || tail[0] == 10 || tail[0] == 13
            then Valid(Max(-0x8000_0000, Min((if 45 in lead then -1 else 1) * m, 0x7FFF_FFFF))) else Invalid
  {
    hide LeadLen, DigitRun, DigitLen, Horner, Digits;
    var ds := Digits(m);
    var s := lead + ds + tail;
    assert s == lead + (ds + tail) && s[|lead|..] == ds + tail && s[..|lead|] == lead;
    assert (ds + tail)[..1] == [ds[0]];
    NoLead(ds[0]);
    LeadIs(lead, ds + tail);
    ReadDigits(m, tail);
    assert tail != [] ==> s[|lead| + |ds|] == tail[0];
  }

  /** Without a digit behind the lead the text is invalid. */
  lemma ReadNothing(lead: seq<byte>, tail: seq<byte>)
    requires AllLead(lead) && (tail == [] || (!IsDigit(tail[0]) && !AllLead(tail[..1])))
    ensures SpecI32(lead + tail) == Invalid
  {
    LeadIs(lead, tail);
    assert (lead + tail)[|lead|..] == tail;
  }

  // ----- pg_parse_q16

  /** Integer part, first six fraction digits and their power of ten. */
  datatype QAcc = QAcc(iv: u32, fv: u32, fd: u32, frac: bool)

  predicate IsQ(b: byte) { IsDigit(b) || b == DOT }

  function QStep(acc: QAcc, b: byte): QAcc
    requires IsQ(b)
  {
    if b == DOT then acc.(frac := true)
    else if !acc.frac then acc.(iv := U32(acc.iv * 10 + (b - ZERO)))
    else if acc.fd < 1000000 then acc.(fv := U32(acc.fv * 10 + (b - ZERO)), fd := U32(acc.fd * 10))
    else acc
  }

  /** The leading run of digits and points, and what it accumulates. */
  function QLen(s: seq<byte>): (n: nat)
    ensures n <= |s| && (forall i :: 0 <= i < n ==> IsQ(s[i])) && (n < |s| ==> !IsQ(s[n]))
  {
    if s == [] || !IsQ(s[0]) then 0 else 1 + QLen(s[1..])
  }

  function QFold(acc: QAcc, s: seq<byte>): QAcc
    requires forall i :: 0 <= i < |s| ==> IsQ(s[i])
    decreases s
  {
    if s == [] then acc else QFold(QStep(acc, s[0]), s[1..])
  }

  function QResult(acc: QAcc): i32 {
    var v := W32(U32(acc.iv * TWO16));
    if acc.frac && acc.fd > 1 then Add32(v, W32(acc.fv * TWO16 / acc.fd)) else v
  }

  method ParseQ16(buf: array<byte>, len: nat, start: nat) returns (val: i32, next: nat)
    requires start <= len <= buf.Length
    ensures var s := buf[start..len];
            next == start + QLen(s) && val == QResult(QFold(QAcc(0, 0, 1, false), s[..QLen(s)]))
  {
    hide QStep, QResult;
    var pos := start;
    var acc := QAcc(0, 0, 1, false);
    ghost var s := buf[start..len];
    ghost var run := s[..QLen(s)];
    assert run[0..] == run;
    while pos < len
      invariant start <= pos <= start + |run| <= len
      invariant QFold(acc, run[pos - start..]) == QFold(QAcc(0, 0, 1, false), run)
    {
      var b := buf[pos];
      ghost var i := pos - start;
      assert b == s[i];
      if b != DOT && (b < 48 || b > 57) {
        break;
      }
      assert i < |run| && b == run[i];
      assert run[i..][1..] == run[i + 1..];
      acc := QStep(acc, b);
      pos := pos + 1;
    }
    assert pos == start + |run|;
    next := pos;
    val := QResult(acc);
  }

  lemma {:induction false} QFoldConcat(acc: QAcc, a: seq<byte>, b: seq<byte>)
    requires forall i :: 0 <= i < |a| ==> IsQ(a[i])
    requires forall i :: 0 <= i < |b| ==> IsQ(b[i])
    ensures QFold(acc, a + b) == QFold(QFold(acc, a), b)
    decreases a
  {
    if a == [] {
      assert a + b == b;
    } else {
      assert (a + b)[1..] == a[1..] + b;
      QFoldConcat(QStep(acc, a[0]), a[1..], b);
    }
  }

  lemma QStepInt(acc: QAcc, b: byte)
    requires IsDigit(b) && !acc.frac && acc.iv * 10 + (b - ZERO) < TWO32
    ensures QStep(acc, b) == acc.(iv := acc.iv * 10 + (b - ZERO))
  {
  }

  lemma QStepFrac(acc: QAcc, b: byte)
    requires IsDigit(b) && acc.frac && acc.fv < acc.fd && acc.fd * 10 <= 1000000
    ensures QStep(acc, b) == acc.(fv := acc.fv * 10 + (b - ZERO), fd := acc.fd * 10)
  {
  }

  lemma {:induction false} QFoldInt(acc: QAcc, ds: seq<byte>)
    requires AllDigits(ds) && !acc.frac && Horner(acc.iv, ds) < TWO32
    ensures QFold(acc, ds) == acc.(iv := Horner(acc.iv, ds))
    decreases ds
  {
    if ds != [] {
      hide QStep;
      HornerGrows(acc.iv, ds);
      HornerGrows(acc.iv * 10 + (ds[0] - ZERO), ds[1..]);
      QStepInt(acc, ds[0]);
      QFoldInt(QStep(acc, ds[0]), ds[1..]);
    }
  }

  lemma {:induction false} QFoldFrac(acc: QAcc, ds: seq<byte>, pw: nat)
    requires AllDigits(ds) && acc.frac && acc.fv < acc.fd
    requires pw == Pow10(|ds|) && acc.fd * pw <= 1000000
    ensures Horner(acc.fv, ds) < acc.fd * pw
    ensures QFold(acc, ds) == acc.(fv := Horner(acc.fv, ds), fd := acc.fd * pw)
    decreases ds
  {
    if ds != [] {
      var rest := Pow10(|ds| - 1);
      TenTimes(acc.fd, rest);
      hide QStep, Pow10;
      QStepFrac(acc, ds[0]);
      QFoldFrac(QStep(acc, ds[0]), ds[1..], rest);
    }
  }

  lemma TenTimes(fd: nat, rest: nat)
    requires 0 < fd && 1 <= rest && fd * (10 * rest) <= 1000000
    ensures (fd * 10) * rest == fd * (10 * rest) && fd * 10 <= 1000000
  {
    MulMono(1, rest, fd * 10);
    assert (fd * 10) * rest == rest * (fd * 10);
  }

  lemma QLenOfRun(a: seq<byte>, rest: seq<byte>)
    requires (forall i :: 0 <= i < |a| ==> IsQ(a[i])) && (rest == [] || !IsQ(rest[0]))
    ensures QLen(a + rest) == |a|
  {
    hide QLen, IsQ;
    var s := a + rest;
    assert forall i :: 0 <= i < |a| ==> s[i] == a[i];
    assert rest != [] ==> s[|a|] == rest[0];
  }

  /** A decimal with an integer part up to 32767 and up to six fraction digits is read as
      floor(value * 2^16), and reading stops right behind it. */
  lemma ReadDecimal(n: nat, ds: seq<byte>, rest: seq<byte>)
    requires n <= 32767 && AllDigits(ds) && 1 <= |ds| <= 6 && (rest == [] || !IsQ(rest[0]))
    ensures var text := Digits(n) + [DOT] + ds;
            var p := Pow10(|ds|);
            && QLen(text + rest) == |text| && (text + rest)[..|text|] == text
            && QResult(QFold(QAcc(0, 0, 1, false), text)) == (n * p + Horner(0, ds)) * TWO16 / p
  {
    var text := Digits(n) + [DOT] + ds;
    QLenOfRun(text, rest);
    var a0 := QAcc(0, 0, 1, false);
    QFoldConcat(a0, Digits(n) + [DOT], ds);
    QFoldConcat(a0, Digits(n), [DOT]);
    ValueOfDigits(n);
    QFoldInt(a0, Digits(n));
    var a1 := a0.(iv := n, frac := true);
    assert QFold(a0.(iv := n), [DOT]) == a1 by {
      assert [DOT][1..] == [];
    }
    Pow10Small(|ds|);
    QFoldFrac(a1, ds, Pow10(|ds|));
    FixedText(n, Horner(0, ds), Pow10(|ds|));
  }

  lemma Pow10Small(k: nat)
    requires k <= 6
    ensures Pow10(k) <= 1000000
    ensures k >= 1 ==> Pow10(k) >= 10
    decreases 6 - k
  {
    if k < 6 {
      Pow10Small(k + 1);
      assert Pow10(k + 1) == 10 * Pow10(k);
    }
  }

  lemma FixedText(n: nat, f: nat, p: nat)
    requires n <= 32767 && f < p && 10 <= p <= 1000000
    ensures QResult(QAcc(n, f, p, true)) == (n * p + f) * TWO16 / p
  {
    hide QResult;
    FracBelowOne(f * TWO16, p);
    FixedParts(n, f, p, f * TWO16 / p);
    SplitNumerator(n, f, p);
  }

  lemma FixedParts(n: nat, f: nat, p: nat, q: int)
    requires n <= 32767 && f < p && 10 <= p <= 1000000 && q == f * TWO16 / p && 0 <= q < TWO16
    ensures QResult(QAcc(n, f, p, true)) == n * TWO16 + q
  {
    hide W32, U32, Add32;
    SmallWraps(n, q);
  }

  lemma SmallWraps(n: nat, q: nat)
    requires n <= 32767 && q < TWO16
    ensures W32(U32(n * TWO16)) == n * TWO16 && W32(q) == q && Add32(n * TWO16, q) == n * TWO16 + q
  {
  }

  lemma SplitNumerator(n: nat, f: nat, p: nat)
    requires 0 < p
    ensures (n * p + f) * TWO16 / p == n * TWO16 + f * TWO16 / p
  {
    assert (n * p + f) * TWO16 == f * TWO16 + (n * TWO16) * p;
    ModShift(f * TWO16, n * TWO16, p);
  }

  lemma FracBelowOne(x: nat, p: nat)
    requires 0 < p && x < p * TWO16
    ensures 0 <= x / p < TWO16
  {
    MulCancelLess(x / p, TWO16, p);
    DivAntitone(x, p, p);
  }
}
