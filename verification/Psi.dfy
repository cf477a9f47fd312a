/** The PSI monitor of src/sys/psi.c: tokenizing /proc/pressure/cpu and feeding the filter. */
module Psi {
  import opened Machine
  import opened Bytes
  import opened FixedPoint
  import opened NumText
  import opened Kalman
  import opened Time

  const AVG10: seq<byte> := [97, 118, 103, 49, 48, 61]         // "avg10="
  const AVG60: seq<byte> := [97, 118, 103, 54, 48, 61]         // "avg60="
  const AVG300: seq<byte> := [97, 118, 103, 51, 48, 48, 61]    // "avg300="
  const TOTAL: seq<byte> := [116, 111, 116, 97, 108, 61]       // "total="
  const SOME: seq<byte> := [115, 111, 109, 101, 32]            // "some "

  /** What the tokenizer extracts from one line. */
  datatype Sample = Sample(avg10: q16, avg300: q16, tot: u64)

  // ----- the tokens, on the text that is left

  function SkipLen(s: seq<byte>): (n: nat)
    ensures n <= |s| && (n < |s| ==> s[n] == SPACE || s[n] == NL)
    ensures n == 0 ==> s == [] || s[0] == SPACE || s[0] == NL
  {
    if s == [] || s[0] == SPACE || s[0] == NL then 0 else 1 + SkipLen(s[1..])
  }

  function ReadQ16(s: seq<byte>): q16 { QResult(QFold(QAcc(0, 0, 1, false), s[..QLen(s)])) }

  /** The line tokenizer as a function of the remaining text. */
  function ParseTail(s: seq<byte>, first: bool, got: Sample): Sample
    decreases |s|
  {
    if s == [] || s[0] == NL then got
    else if s[0] == SPACE then ParseTail(s[1..], first, got)
    else if StartsWith(s, AVG10) then
      var t := s[6..];
      if !first then ParseTail(t[SkipLen(t)..], first, got)
      else ParseTail(t[QLen(t)..], first, got.(avg10 := ReadQ16(t)))
    else if StartsWith(s, AVG300) then
      var t := s[7..];
      ParseTail(t[QLen(t)..], first, got.(avg300 := ReadQ16(t)))
    else if StartsWith(s, TOTAL) then
      var t := s[6..];
      ParseTail(t[DigitLen(t)..], first, if DigitLen(t) > 0 then got.(tot := FoldU64(0, DigitRun(t))) else got)
    else
      ParseTail(s[SkipLen(s)..], first, got)
  }

  datatype Found = NotFound | Line(text: seq<byte>)

  function LineLen(s: seq<byte>): (n: nat)
    ensures n <= |s| && (n < |s| ==> s[n] == NL)
  {
    if s == [] || s[0] == NL then 0 else 1 + LineLen(s[1..])
  }

  /** The text behind the first line that starts with "some ". */
  function FindSome(s: seq<byte>): Found
    decreases |s|
  {
    if s == [] then NotFound
    else if StartsWith(s, SOME) then Line(s[5..])
    else if LineLen(s) == |s| then NotFound
    else FindSome(s[LineLen(s) + 1..])
  }

  lemma {:induction false} LineLenIs(line: seq<byte>, rest: seq<byte>)
    requires 10 !in line && (rest == [] || rest[0] == 10)
    ensures LineLen(line + rest) == |line|
    decreases |line|
  {
    if line == [] {
      assert line + rest == rest;
    } else {
      assert (line + rest)[1..] == line[1..] + rest;
      LineLenIs(line[1..], rest);
    }
  }

  /** The scan, told line by line: a line that starts with "some " is found, and what is behind these five bytes is
      returned; any other line is passed over, and without one nothing is found. */
  lemma FindByLine(line: seq<byte>, rest: seq<byte>)
    requires 10 !in line
    ensures var t := [115, 111, 109, 101, 32];
            FindSome(line + [10] + rest) == if |line| >= 5 && line[..5] == t then Line(line[5..] + [10] + rest)
                                            else FindSome(rest)
    ensures FindSome([]) == NotFound
    ensures !(|line| >= 5 && line[..5] == [115, 111, 109, 101, 32]) ==> FindSome(line) == NotFound
  {
    var s := line + [10] + rest;
    assert s == line + ([10] + rest) && s[|line| + 1..] == rest;
    LineLenIs(line, [10] + rest);
    LineLenIs(line, []);
    assert line + [] == line;
    if |line| >= 5 {
      assert s[..5] == line[..5] && s[5..] == line[5..] + [10] + rest;
    } else if |s| >= 5 {
      assert s[..5][|line|] == 10;
    }
  }

  // ----- the scanning loops

  method BufferCmp(buf: array<byte>, off: nat, str: seq<byte>) returns (same: bool)
    requires off + |str| <= buf.Length
    ensures same <==> buf[off..off + |str|] == str
  {
    for i := 0 to |str|
      invariant buf[off..off + i] == str[..i]
    {
      if buf[off + i] != str[i] {
        assert buf[off..off + |str|][i] != str[i];
        return false;
      }
    }
    return true;
  }

  /** Whether the unread part of the buffer starts with a token. */
  method At(buf: array<byte>, len: nat, pos: nat, tok: seq<byte>) returns (yes: bool)
    requires pos <= len <= buf.Length
    ensures yes <==> StartsWith(buf[pos..len], tok)
  {
    if pos + |tok| > len {
      return false;
    }
    yes := BufferCmp(buf, pos, tok);
    assert buf[pos..len][..|tok|] == buf[pos..pos + |tok|];
  }

  method SkipToken(buf: array<byte>, len: nat, start: nat) returns (pos: nat)
    requires start <= len <= buf.Length
    ensures pos == start + SkipLen(buf[start..len])
  {
    pos := start;
    while pos < len && buf[pos] != SPACE && buf[pos] != NL
      invariant start <= pos <= len
      invariant start + SkipLen(buf[start..len]) == pos + SkipLen(buf[pos..len])
    {
      assert buf[pos..len][1..] == buf[pos + 1..len];
      assert buf[pos..len][0] == buf[pos];
      pos := pos + 1;
    }
    assert pos < len ==> buf[pos..len][0] == buf[pos];
  }

  // One step of the tokenizer for each kind of token.

  lemma StepSpace(s: seq<byte>, first: bool, got: Sample)
    requires s != [] && s[0] == SPACE
    ensures ParseTail(s, first, got) == ParseTail(s[1..], first, got)
  {
  }

  lemma StepAvg10(s: seq<byte>, first: bool, got: Sample)
    requires StartsWith(s, AVG10)
    ensures |s| >= 6
    ensures ParseTail(s, first, got) ==
            if first then ParseTail(s[6 + QLen(s[6..])..], first, got.(avg10 := ReadQ16(s[6..])))
            else ParseTail(s[6 + SkipLen(s[6..])..], first, got)
  {
    hide ReadQ16, QLen, SkipLen;
    assert s[0] == AVG10[0];
    if first {
      Drop(s, 6, QLen(s[6..]));
    } else {
      Drop(s, 6, SkipLen(s[6..]));
    }
  }

  lemma StepAvg300(s: seq<byte>, first: bool, got: Sample)
    requires StartsWith(s, AVG300) && !StartsWith(s, AVG10)
    ensures |s| >= 7
    ensures ParseTail(s, first, got) == ParseTail(s[7 + QLen(s[7..])..], first, got.(avg300 := ReadQ16(s[7..])))
  {
    hide ReadQ16, QLen, SkipLen;
    assert s[0] == AVG300[0];
    Drop(s, 7, QLen(s[7..]));
  }

  lemma StepTotal(s: seq<byte>, first: bool, got: Sample)
    requires StartsWith(s, TOTAL) && !StartsWith(s, AVG10) && !StartsWith(s, AVG300)
    ensures |s| >= 6
    ensures var n := DigitLen(s[6..]);
            ParseTail(s, first, got) ==
            ParseTail(s[6 + n..], first, if n > 0 then got.(tot := FoldU64(0, DigitRun(s[6..]))) else got)
  {
    assert s[0] == TOTAL[0];
    Drop(s, 6, DigitLen(s[6..]));
  }

  lemma StepWord(s: seq<byte>, first: bool, got: Sample)
    requires s != [] && s[0] != SPACE && s[0] != NL
    requires !StartsWith(s, AVG10) && !StartsWith(s, AVG300) && !StartsWith(s, TOTAL)
    ensures SkipLen(s) > 0 && ParseTail(s, first, got) == ParseTail(s[SkipLen(s)..], first, got)
  {
  }

  lemma Drop(s: seq<byte>, a: nat, b: nat)
    requires a + b <= |s|
    ensures s[a..][b..] == s[a + b..]
  {
  }

  lemma RestOf(buf: array<byte>, len: nat, start: nat, k: nat)
    requires start + k <= len <= buf.Length
    ensures buf[start..len][k..] == buf[start + k..len]
  {
  }

  method TokenAvg10(buf: array<byte>, len: nat, start: nat, first: bool, init: Sample)
    returns (pos: nat, got: Sample)
    requires start < len <= buf.Length && StartsWith(buf[start..len], AVG10)
    ensures start < pos <= len
    ensures ParseTail(buf[pos..len], first, got) == ParseTail(buf[start..len], first, init)
  {
    hide ParseTail, QLen, QFold, QResult, SkipLen, StartsWith;
    StepAvg10(buf[start..len], first, init);
    RestOf(buf, len, start, 6);
    got := init;
    if first {
      var v;
      v, pos := ParseQ16(buf, len, start + 6);
      got := got.(avg10 := v);
    } else {
      pos := SkipToken(buf, len, start + 6);
    }
    RestOf(buf, len, start, pos - start);
  }

  method TokenAvg300(buf: array<byte>, len: nat, start: nat, first: bool, init: Sample)
    returns (pos: nat, got: Sample)
    requires start < len <= buf.Length && StartsWith(buf[start..len], AVG300) && !StartsWith(buf[start..len], AVG10)
    ensures start < pos <= len
    ensures ParseTail(buf[pos..len], first, got) == ParseTail(buf[start..len], first, init)
  {
    hide ParseTail, QLen, QFold, QResult, StartsWith;
    StepAvg300(buf[start..len], first, init);
    RestOf(buf, len, start, 7);
    var v;
    v, pos := ParseQ16(buf, len, start + 7);
    got := init.(avg300 := v);
    RestOf(buf, len, start, pos - start);
  }

  method TokenTotal(buf: array<byte>, len: nat, start: nat, first: bool, init: Sample)
    returns (pos: nat, got: Sample)
    requires start < len <= buf.Length && StartsWith(buf[start..len], TOTAL)
    requires !StartsWith(buf[start..len], AVG10) && !StartsWith(buf[start..len], AVG300)
    ensures start < pos <= len
    ensures ParseTail(buf[pos..len], first, got) == ParseTail(buf[start..len], first, init)
  {
    hide ParseTail, FoldU64, DigitLen, DigitRun, StartsWith;
    StepTotal(buf[start..len], first, init);
    RestOf(buf, len, start, 6);
    got := init;
    var tot;
    tot, pos := ParseU64(buf, len, start + 6);
    if pos > start + 6 {
      got := got.(tot := tot);
    }
    RestOf(buf, len, start, pos - start);
  }

  /** One round of the tokenizer's loop, past the newline test: consumes a blank or a token. */
  method ParseToken(buf: array<byte>, len: nat, start: nat, first: bool, init: Sample)
    returns (pos: nat, got: Sample)
    requires start < len <= buf.Length && buf[start] != NL
    ensures start < pos <= len
    ensures ParseTail(buf[pos..len], first, got) == ParseTail(buf[start..len], first, init)
  {
    hide ParseTail, SkipLen, StartsWith;
    pos, got := start, init;
    assert buf[start..len][0] == buf[start];
    if buf[pos] == SPACE {
      StepSpace(buf[start..len], first, got);
      RestOf(buf, len, start, 1);
      pos := pos + 1;
      return;
    }
    var isAvg10 := At(buf, len, pos, AVG10);
    if isAvg10 {
      pos, got := TokenAvg10(buf, len, pos, first, got);
      return;
    }
    var isAvg300 := At(buf, len, pos, AVG300);
    if isAvg300 {
      pos, got := TokenAvg300(buf, len, pos, first, got);
      return;
    }
    var isTotal := At(buf, len, pos, TOTAL);
    if isTotal {
      pos, got := TokenTotal(buf, len, pos, first, got);
      return;
    }
    StepWord(buf[start..len], first, got);
    pos := SkipToken(buf, len, pos);
    RestOf(buf, len, start, pos - start);
  }

  /** The tokenizer: in bounds and terminating on any bytes. */
  method Parse(buf: array<byte>, len: nat, start: nat, first: bool, init: Sample) returns (got: Sample)
    requires start <= len <= buf.Length
    ensures got == ParseTail(buf[start..len], first, init)
  {
    hide ParseTail;
    var pos := start;
    got := init;
    while pos < len && buf[pos] != NL
      invariant start <= pos <= len
      invariant ParseTail(buf[pos..len], first, got) == ParseTail(buf[start..len], first, init)
      decreases len - pos
    {
      pos, got := ParseToken(buf, len, pos, first, got);
    }
    ParseEnd(buf[pos..len], first, got);
  }

  lemma ParseEnd(s: seq<byte>, first: bool, got: Sample)
    ensures s == [] || s[0] == NL ==> ParseTail(s, first, got) == got
  {
  }

  method LineEnd(buf: array<byte>, len: nat, start: nat) returns (pos: nat)
    requires start <= len <= buf.Length
    ensures pos == start + LineLen(buf[start..len])
  {
    pos := start;
    while pos < len && buf[pos] != NL
      invariant start <= pos <= len
      invariant start + LineLen(buf[start..len]) == pos + LineLen(buf[pos..len])
    {
      assert buf[pos..len][1..] == buf[pos + 1..len];
      assert buf[pos..len][0] == buf[pos];
      pos := pos + 1;
    }
    assert pos < len ==> buf[pos..len][0] == buf[pos];
  }

  /** The scan for the first line that starts with "some ". */
  method Find(buf: array<byte>, len: nat) returns (found: bool, pos: nat)
    requires len <= buf.Length
    ensures found ==> pos <= len && FindSome(buf[..len]) == Line(buf[pos..len])
    ensures !found ==> FindSome(buf[..len]) == NotFound
  {
    hide LineLen, StartsWith;
    pos := 0;
    assert buf[0..len] == buf[..len];
    while pos < len
      invariant pos <= len
      invariant FindSome(buf[pos..len]) == FindSome(buf[..len])
      decreases len - pos
    {
      ghost var s := buf[pos..len];
      var isSome := At(buf, len, pos, SOME);
      if isSome {
        assert s[..|SOME|] == SOME && s[5..] == buf[pos + 5..len] by { SomeFits(s); }
        return true, pos + 5;
      }
      var end := LineEnd(buf, len, pos);
      if end == len {
        return false, len + 1;
      }
      assert s[LineLen(s) + 1..] == buf[end + 1..len];
      pos := end + 1;
    }
    return false, pos;
  }

  lemma SomeFits(s: seq<byte>)
    requires StartsWith(s, SOME)
    ensures |s| >= 5 && s[..|SOME|] == SOME
  {
  }

  // ----- a line as the kernel prints it

  /** A percentage with two decimals. */
  datatype Pct = Pct(whole: nat, hundredths: nat)

  predicate IsPct(p: Pct) { p.whole <= 32767 && p.hundredths < 100 }

  function Hundredths(p: Pct): seq<byte>
    requires IsPct(p)
  {
    [ZERO + p.hundredths / 10, ZERO + p.hundredths % 10]
  }

  function PctText(p: Pct): seq<byte>
    requires IsPct(p)
  {
    Digits(p.whole) + [DOT] + Hundredths(p)
  }

  /** floor(p * 2^16) */
  function PctQ16(p: Pct): q16
    requires IsPct(p)
  { 
    (p.whole * 100 + p.hundredths) * TWO16 / 100
  }

  lemma TwoDigits(a: byte, b: byte)
    requires IsDigit(a) && IsDigit(b)
    ensures Horner(0, [a, b]) == (a - ZERO) * 10 + (b - ZERO)
  {
    HornerAppend(0, [a], b);
    assert [a] + [b] == [a, b] && [a][1..] == [];
  }

  lemma ReadPct(p: Pct, rest: seq<byte>)
    requires IsPct(p) && (rest == [] || !IsQ(rest[0]))
    ensures QLen(PctText(p) + rest) == |PctText(p)|
    ensures ReadQ16(PctText(p) + rest) == PctQ16(p)
  {
    var ds := Hundredths(p);
    ReadDecimal(p.whole, ds, rest);
    TwoDigits(ds[0], ds[1]);
    assert Pow10(2) == 100;
  }

  /** Everything a "some" line prints after "some ", up to the newline. */
  function KernelTail(a10: Pct, a60: Pct, a300: Pct, total: u64, rest: seq<byte>): seq<byte>
    requires IsPct(a10) && IsPct(a60) && IsPct(a300)
  {
    AVG10 + PctText(a10) + ([SPACE] + (AVG60 + PctText(a60) + ([SPACE] + (AVG300 + PctText(a300)
      + ([SPACE] + (TOTAL + Digits(total) + ([NL] + rest)))))))
  }

  lemma ParseSpace(s: seq<byte>, first: bool, got: Sample)
    ensures ParseTail([SPACE] + s, first, got) == ParseTail(s, first, got)
  {
    assert ([SPACE] + s)[1..] == s;
  }

  lemma TokenAt(tok: seq<byte>, s: seq<byte>)
    ensures StartsWith(tok + s, tok) && (tok + s)[|tok|..] == s
  {
  }

  lemma ParseAvg10(p: Pct, rest: seq<byte>, first: bool, got: Sample)
    requires IsPct(p) && rest != [] && rest[0] == SPACE
    ensures ParseTail(AVG10 + PctText(p) + rest, first, got)
         == ParseTail(rest, first, if first then got.(avg10 := PctQ16(p)) else got)
  {
    var t := PctText(p) + rest;
    Regroup(AVG10, PctText(p), rest);
    TokenAt(AVG10, t);
    ReadPct(p, rest);
    if !first {
      SkipWord(PctText(p), rest);
    }
    hide ParseTail, StartsWith, QLen, ReadQ16, SkipLen, PctText, PctQ16;
    StepAvg10(AVG10 + t, first, got);
    Drop(AVG10 + t, 6, |PctText(p)|);
  }

  lemma Regroup(a: seq<byte>, b: seq<byte>, c: seq<byte>)
    ensures a + b + c == a + (b + c) && (b + c)[|b|..] == c
  {
  }

  lemma NotAvg10(t: seq<byte>)
    ensures !StartsWith(AVG300 + t, AVG10)
  {
    assert (AVG300 + t)[..6][3] == AVG300[3];
  }

  lemma ParseAvg300(p: Pct, rest: seq<byte>, first: bool, got: Sample)
    requires IsPct(p) && rest != [] && rest[0] == SPACE
    ensures ParseTail(AVG300 + PctText(p) + rest, first, got) == ParseTail(rest, first, got.(avg300 := PctQ16(p)))
  {
    var t := PctText(p) + rest;
    Regroup(AVG300, PctText(p), rest);
    TokenAt(AVG300, t);
    NotAvg10(t);
    ReadPct(p, rest);
    hide ParseTail, StartsWith, QLen, ReadQ16, PctText, PctQ16;
    StepAvg300(AVG300 + t, first, got);
    Drop(AVG300 + t, 7, |PctText(p)|);
  }

  lemma ParseTotal(n: u64, rest: seq<byte>, first: bool, got: Sample)
    requires rest != [] && rest[0] == NL
    ensures ParseTail(TOTAL + Digits(n) + rest, first, got) == got.(tot := n)
  {
    var t := Digits(n) + rest;
    assert TOTAL + Digits(n) + rest == TOTAL + t;
    TokenAt(TOTAL, t);
    var s := TOTAL + t;
    assert s[0] == 116;
    assert !StartsWith(s, AVG10) && !StartsWith(s, AVG300);
    ReadDigits(n, rest);
    FoldExact(0, DigitRun(t));
    assert t[|Digits(n)|..] == rest;
  }

  /** A word without blanks is skipped whole. */
  lemma SkipWord(w: seq<byte>, rest: seq<byte>)
    requires forall i :: 0 <= i < |w| ==> w[i] != SPACE && w[i] != NL
    requires rest != [] && rest[0] == SPACE
    ensures SkipLen(w + rest) == |w|
  {
    if w == [] {
      assert w + rest == rest;
    } else {
      assert (w + rest)[1..] == w[1..] + rest;
      SkipWord(w[1..], rest);
    }
  }

  lemma ParseAvg60(p: Pct, rest: seq<byte>, first: bool, got: Sample)
    requires IsPct(p) && rest != [] && rest[0] == SPACE
    ensures ParseTail(AVG60 + PctText(p) + rest, first, got) == ParseTail(rest, first, got)
  {
    var w := AVG60 + PctText(p);
    var s := w + rest;
    assert s[3] == 54 && s[0] == 97;
    assert !StartsWith(s, AVG10) by {
      assert s[..6][3] == 54;
    }
    assert !StartsWith(s, AVG300) by {
      if |s| >= 7 {
        assert s[..7][3] == 54;
      }
    }
    assert !StartsWith(s, TOTAL) by {
      assert s[..6][0] == 97;
    }
    SkipWord(w, rest);
    assert s[|w|..] == rest;
  }

  /** From any line the kernel prints, the tokenizer recovers the total exactly and the averages as
      floor(value * 2^16); avg10 only when asked for. */
  lemma ParseKernelLine(a10: Pct, a60: Pct, a300: Pct, total: u64, rest: seq<byte>, first: bool, init: Sample)
    requires IsPct(a10) && IsPct(a60) && IsPct(a300)
    ensures ParseTail(KernelTail(a10, a60, a300, total, rest), first, init)
         == Sample(if first then PctQ16(a10) else init.avg10, PctQ16(a300), total)
    ensures FindSome(SOME + KernelTail(a10, a60, a300, total, rest)) == Line(KernelTail(a10, a60, a300, total, rest))
  {
    hide ParseTail, PctText, Digits;
    var r4 := TOTAL + Digits(total) + ([NL] + rest);
    var r3 := AVG300 + PctText(a300) + ([SPACE] + r4);
    var r2 := AVG60 + PctText(a60) + ([SPACE] + r3);
    var g1 := if first then init.(avg10 := PctQ16(a10)) else init;
    ParseAvg10(a10, [SPACE] + r2, first, init);
    ParseSpace(r2, first, g1);
    ParseAvg60(a60, [SPACE] + r3, first, g1);
    ParseSpace(r3, first, g1);
    ParseAvg300(a300, [SPACE] + r4, first, g1);
    var g2 := g1.(avg300 := PctQ16(a300));
    ParseSpace(r4, first, g2);
    ParseTotal(total, [NL] + rest, first, g2);
    TokenAt(SOME, KernelTail(a10, a60, a300, total, rest));
  }

  // ----- the monitor

  datatype Trend = Trend(cur: q16, vel: q16, avg10: q16, avg300: q16, nis: q16)

  /** Stall time gained over dt as a percentage in Q16, cut at 500; zero if the counter did not grow. */
  function RawRate(tot: u64, last: u64, dt: q16): q16 {
    if tot <= last then 0
    else
      var us := U64(U64(dt) * 1_000_000) / TWO16;
      var raw := U64(U64((tot - last) * 100) * TWO16) / (if us == 0 then 1 else us);
      if raw > Z_MAX then Z_MAX else raw
  }

  /** Below 2^64 / (100 * 2^16) microseconds of stall the rate is the exact floor, cut at 500. */
  lemma RawRateExact(tot: u64, last: u64, dt: q16)
    requires last <= tot && 65 <= dt && (tot - last) * 100 * TWO16 <= U64_MAX
    ensures var us := dt * 1_000_000 / TWO16;
            us > 0 && RawRate(tot, last, dt) == Min((tot - last) * 100 * TWO16 / us, Z_MAX)
  {
    hide U64;
    U64Fits(dt);
    U64Fits(dt * 1_000_000);
    U64Fits((tot - last) * 100);
    U64Fits((tot - last) * 100 * TWO16);
    var us := dt * 1_000_000 / TWO16;
    assert us >= 991;
    if tot == last {
      DivUnique(0, us, 0, 0);
    }
  }

  /** Time step handed to the filter. */
  function ReadDt(first: bool, prev: Stamp, now: Stamp): q16 {
    if first then ONE else if DtSec(prev, now) < 65 then 65 else DtSec(prev, now)
  }

  /** The filter and the trend after a successful read. A first read is seeded from avg10, with zero
      velocity and zero NIS; any other read feeds the filter with the measured rate. */
  function ReadFilter(s: State, smp: Sample, first: bool, last: u64, dt: q16): State {
    if first then Step(INITIAL, smp.avg10, ONE) else Step(s, RawRate(smp.tot, last, dt), dt)
  }

  function ReadTrend(f: State, smp: Sample, first: bool): Trend {
    if first then Trend(smp.avg10, 0, smp.avg10, smp.avg300, 0)
    else Trend(if f.xPos > 0 then f.xPos else 0, f.xVel, smp.avg10, smp.avg300, f.nis)
  }

  /** The first read after a start or a wake: the filter is seeded with avg10, cut to [0, 500], and avg10 itself is
      reported, with no velocity and no NIS. */
  lemma FirstReport(s: State, smp: Sample, last: u64, prev: Stamp, now: Stamp)
    ensures var f := ReadFilter(s, smp, true, last, ReadDt(true, prev, now));
            && f == INITIAL.(xPos := Max(0, Min(smp.avg10, 32_768_000)), firstRun := false)
            && ReadTrend(f, smp, true) == Trend(smp.avg10, 0, smp.avg10, smp.avg300, 0)
  {
    FirstStep(smp.avg10, ONE);
    hide Step;
  }

  /** The stalled share of a time step in percent, cut at 500. */
  lemma StalledShare(tot: u64, last: u64, dt: q16) returns (us: int, rate: q16)
    requires last <= tot && 65 <= dt && (tot - last) * 100 * 65536 <= U64_MAX
    ensures us == dt * 1_000_000 / 65536 && us > 0
    ensures rate == RawRate(tot, last, dt) == Min((tot - last) * 100 * 65536 / us, 500 * 65536) && 0 <= rate
  {
    RawRateExact(tot, last, dt);
    hide RawRate;
    us := dt * 1_000_000 / 65536;
    rate := RawRate(tot, last, dt);
    DivMono(0, (tot - last) * 100 * 65536, us);
    DivUnique(0, us, 0, 0);
  }

  /** Every other read feeds the filter with the share of the time since the last one that was stalled, in percent
      and cut at 500, and with that time, at least a millisecond; it reports what the filter then says. */
  lemma NextReport(s: State, smp: Sample, last: u64, prev: Stamp, now: Stamp) returns (us: int, rate: q16)
    requires last <= smp.tot && (smp.tot - last) * 100 * 65536 <= U64_MAX
    ensures us == Max(DtSec(prev, now), 65) * 1_000_000 / 65536 && us > 0
    ensures rate == Min((smp.tot - last) * 100 * 65536 / us, 500 * 65536) && 0 <= rate
    ensures var f := ReadFilter(s, smp, false, last, ReadDt(false, prev, now));
            && f == Step(s, rate, Max(DtSec(prev, now), 65))
            && ReadTrend(f, smp, false) == Trend(Max(f.xPos, 0), f.xVel, smp.avg10, smp.avg300, f.nis)
  {
    hide Step, RawRate, DtSec;
    us, rate := StalledShare(smp.tot, last, ReadDt(false, prev, now));
  }

  /** So the second read, at most five seconds after the first, reports a pressure between the avg10 of the first and
      the stalled share of the time in between. */
  lemma SecondReport(s: State, a: Sample, b: Sample, last: u64, before: Stamp, prev: Stamp, now: Stamp)
    returns (us: int, rate: q16)
    requires 0 <= a.avg10 <= 500 * 65536 && DtSec(prev, now) <= 5 * 65536
    requires a.tot <= b.tot && (b.tot - a.tot) * 100 * 65536 <= U64_MAX
    ensures us == Max(DtSec(prev, now), 65) * 1_000_000 / 65536 && us > 0
    ensures rate == Min((b.tot - a.tot) * 100 * 65536 / us, 500 * 65536) && 0 <= rate
    ensures var f := ReadFilter(s, a, true, last, ReadDt(true, before, prev));
            var t := ReadTrend(ReadFilter(f, b, false, a.tot, ReadDt(false, prev, now)), b, false);
            && t.avg10 == b.avg10 && t.avg300 == b.avg300 && 0 <= t.nis
            && Min(a.avg10, rate) <= t.cur <= Max(a.avg10, rate)
  {
    hide Step, RawRate, DtSec;
    us, rate := NextReport(ReadFilter(s, a, true, last, ReadDt(true, before, prev)), b, a.tot, prev, now);
    SecondUpdate(a.avg10, ONE, rate, Max(DtSec(prev, now), 65));
  }

  class Monitor {
    const filter: Filter
    var fd: int
    var lastRead: Stamp
    var lastTot: u64
    var firstRun: bool

    constructor (fd: int, now: Stamp)
      ensures this.fd == fd && firstRun && lastTot == 0 && lastRead == now
      ensures fresh(filter) && filter.Value() == INITIAL
    {
      filter := new Filter();
      this.fd := fd;
      lastRead, lastTot, firstRun := now, 0, true;
    }

    /** The "some" line a successful read of content would parse. */
    ghost function SampleOf(content: seq<byte>): Sample
      reads this
      requires FindSome(content).Line?
    {
      ParseTail(FindSome(content).text, firstRun, Sample(0, 0, lastTot))
    }

    /** pg_psi_read. sz is what pread returned: the bytes placed in buf, or no more than zero. A failed
        read changes nothing. */
    method Read(buf: array<byte>, sz: int, now: Stamp) returns (ok: bool, trend: Trend)
      requires sz <= buf.Length
      modifies this, filter
      ensures ok <==> old(fd) >= 0 && sz > 0 && FindSome(buf[..sz]).Line?
      ensures fd == old(fd)
      ensures !ok ==> unchanged(this) && unchanged(filter)
      ensures ok ==>
        var smp := old(SampleOf(buf[..sz]));
        var dt := ReadDt(old(firstRun), old(lastRead), now);
        && !firstRun && lastTot == smp.tot && lastRead == now
        && filter.Value() == ReadFilter(old(filter.Value()), smp, old(firstRun), old(lastTot), dt)
        && trend == ReadTrend(filter.Value(), smp, old(firstRun))
    {
      trend := Trend(0, 0, 0, 0, 0);
      if fd < 0 || sz <= 0 {
        return false, trend;
      }
      var dt := ONE;
      if !firstRun {
        dt := DtSec(lastRead, now);
        if dt < 65 {
          dt := 65;
        }
      }
      var found, pos := Find(buf, sz);
      if !found {
        return false, trend;
      }
      hide ParseTail, FindSome, Step, RawRate;
      var smp := Parse(buf, sz, pos, firstRun, Sample(0, 0, lastTot));
      if firstRun {
        trend := Trend(smp.avg10, 0, smp.avg10, smp.avg300, 0);
        filter.Reset();
        var seeded := filter.Update(smp.avg10, ONE);
        firstRun := false;
      } else {
        var raw := RawRate(smp.tot, lastTot, dt);
        var cur := filter.Update(raw, dt);
        trend := Trend(cur, filter.xVel, smp.avg10, smp.avg300, filter.nis);
      }
      lastRead := now;
      lastTot := smp.tot;
      ok := true;
    }

    /** The wake-up part of update_disp: the next successful read starts afresh. */
    method Restart()
      modifies this, filter
      ensures firstRun && filter.Value() == INITIAL
      ensures fd == old(fd) && lastTot == old(lastTot) && lastRead == old(lastRead)
    {
      filter.Reset();
      firstRun := true;
    }
  }
}
