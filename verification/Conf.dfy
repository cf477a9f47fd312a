/** The streaming configuration parser of src/sys/conf.c. */
module Conf {
  import opened Machine
  import opened Bytes

  const BUF_SZ := 4096
  const LINE_SZ := 256

  predicate IsBlank(b: byte) { b == SPACE || b == TAB }

  /** One callback, or none. */
  datatype Call = NoCall | Call(key: seq<byte>, val: seq<byte>)

  /** The result a callback returns on its k-th call. */
  type Callback = (nat, seq<byte>, seq<byte>) -> int

  // ----- reference: one line

  /** Index of the first c, or the length. */
  function IndexOf(s: seq<byte>, c: byte): (n: nat)
    ensures n <= |s| && (forall i :: 0 <= i < n ==> s[i] != c) && (n < |s| ==> s[n] == c)
  {
    if s == [] || s[0] == c then 0 else 1 + IndexOf(s[1..], c)
  }

  /** The text up to the first c. */
  function Cut(s: seq<byte>, c: byte): seq<byte> { s[..IndexOf(s, c)] }

  function BlankLen(s: seq<byte>): (n: nat)
    ensures n <= |s| && (forall i :: 0 <= i < n ==> IsBlank(s[i])) && (n < |s| ==> !IsBlank(s[n]))
  {
    if s == [] || !IsBlank(s[0]) then 0 else 1 + BlankLen(s[1..])
  }

  function TrimLead(s: seq<byte>): seq<byte> { s[BlankLen(s)..] }

  function TrimEnd(s: seq<byte>): seq<byte> {
    if s != [] && IsBlank(s[|s| - 1]) then TrimEnd(s[..|s| - 1]) else s
  }

  function Trim(s: seq<byte>): seq<byte> { TrimEnd(TrimLead(s)) }

  /** What one line asks for: text behind '#' or a carriage return is dropped, the rest is split at the
      first '=', both sides are trimmed of blanks, and an empty key asks for nothing. A NUL byte ends
      the line as it ends any C string. */
  function LineCall(line: seq<byte>): Call { StringCall(Cut(line, NUL)) }

  function StringCall(str: seq<byte>): Call {
    var s := Cut(Cut(str, HASH), CR);
    var e := IndexOf(s, EQUALS);
    if e == |s| then NoCall
    else
      var key, val := Trim(s[..e]), Trim(s[e + 1..]);
      if key == [] then NoCall else Call(key, val)
  }

  // ----- reference: a file

  /** The text split at newlines; the last piece may be unterminated or empty. */
  function Split(text: seq<byte>): (lines: seq<seq<byte>>)
    ensures |lines| >= 1
    decreases |text|
  {
    var n := IndexOf(text, NL);
    if n == |text| then [text] else [text[..n]] + Split(text[n + 1..])
  }

  /** Lines over 255 bytes are dropped whole. */
  function PieceCalls(line: seq<byte>): seq<Call> {
    if |line| > LINE_SZ - 1 || LineCall(line) == NoCall then [] else [LineCall(line)]
  }

  function CallsOf(lines: seq<seq<byte>>): seq<Call> {
    if lines == [] then [] else PieceCalls(lines[0]) + CallsOf(lines[1..])
  }

  function Concat(chunks: seq<seq<byte>>): seq<byte> {
    if chunks == [] then [] else chunks[0] + Concat(chunks[1..])
  }

  ghost predicate AllOk(calls: seq<Call>, cb: Callback) {
    forall j: nat :: j < |calls| ==> calls[j].Call? && cb(j, calls[j].key, calls[j].val) >= 0
  }

  // ----- what a line means, told from its parts

  predicate AllBlank(s: seq<byte>) { forall i :: 0 <= i < |s| ==> s[i] == 32 || s[i] == 9 }

  /** Not blank at either end. */
  predicate Trimmed(s: seq<byte>) { s != [] ==> !AllBlank(s[..1]) && !AllBlank(s[|s| - 1..]) }

  lemma CutBehind(x: seq<byte>, y: seq<byte>, c: byte)
    requires c !in x
    ensures Cut(x + y, c) == x + Cut(y, c) && IndexOf(x + y, c) == |x| + IndexOf(y, c)
  {
    IndexUnique(x + y, c, |x| + IndexOf(y, c));
  }

  lemma {:induction false} TrimEndIs(w: seq<byte>, b: seq<byte>)
    requires AllBlank(b) && Trimmed(w)
    ensures TrimEnd(w + b) == w
    decreases |b|
  {
    if b == [] {
      assert w + b == w;
      assert w != [] ==> w[|w| - 1..] == [w[|w| - 1]];
    } else {
      assert (w + b)[..|w + b| - 1] == w + b[..|b| - 1];
      TrimEndIs(w, b[..|b| - 1]);
    }
  }

  lemma {:induction false} BlankLenIs(a: seq<byte>, s: seq<byte>)
    requires AllBlank(a) && (s != [] ==> !IsBlank(s[0]))
    ensures BlankLen(a + s) == |a|
    decreases |a|
  {
    if a == [] {
      assert a + s == s;
    } else {
      assert (a + s)[1..] == a[1..] + s;
      BlankLenIs(a[1..], s);
    }
  }

  lemma TrimIs(a: seq<byte>, w: seq<byte>, b: seq<byte>)
    requires AllBlank(a) && AllBlank(b) && Trimmed(w)
    ensures Trim(a + w + b) == w
  {
    if w == [] {
      BlankLenIs(a + b, []);
      assert a + w + b == a + b + [];
    } else {
      assert w[..1] == [w[0]];
      BlankLenIs(a, w + b);
      assert a + w + b == a + (w + b);
      TrimEndIs(w, b);
    }
  }

  /** A comment or a carriage return, and everything behind it, or nothing. */
  lemma TailDropped(body: seq<byte>, tail: seq<byte>)
    requires 0 !in body && 35 !in body && 13 !in body && (tail == [] || tail[0] == 35 || tail[0] == 13)
    ensures Cut(Cut(Cut(body + tail, NUL), HASH), CR) == body
  {
    var t := Cut(tail, NUL);
    CutBehind(body, tail, NUL);
    CutBehind(body, t, HASH);
    CutBehind(body, Cut(t, HASH), CR);
  }

  /** A line "key = value # comment" of at most 255 bytes makes the call (key, value): blanks around both are ignored,
      the value may contain '=' and may be empty. */
  lemma SettingLine(a: seq<byte>, key: seq<byte>, b: seq<byte>, c: seq<byte>, val: seq<byte>, d: seq<byte>,
                    tail: seq<byte>)
    requires AllBlank(a) && AllBlank(b) && AllBlank(c) && AllBlank(d)
    requires key != [] && Trimmed(key) && Trimmed(val) && 61 !in key
    requires forall x :: x in key || x in val ==> x != 0 && x != 35 && x != 13
    requires tail == [] || tail[0] == 35 || tail[0] == 13
    requires |a + key + b + [61] + (c + val + d) + tail| <= 255
    ensures PieceCalls(a + key + b + [61] + (c + val + d) + tail) == [Call(key, val)]
  {
    var left, right := a + key + b, c + val + d;
    var body := left + [61] + right;
    NoneIn(a, key, b, 0);
    NoneIn(a, key, b, 35);
    NoneIn(a, key, b, 13);
    NoneIn(a, key, b, 61);
    NoneIn(c, val, d, 0);
    NoneIn(c, val, d, 35);
    NoneIn(c, val, d, 13);
    TailDropped(body, tail);
    TrimIs(a, key, b);
    TrimIs(c, val, d);
    hide Cut, Trim, IndexOf;
    SplitAtEquals(left, right);
  }

  lemma NoneIn(a: seq<byte>, w: seq<byte>, b: seq<byte>, x: byte)
    requires AllBlank(a) && AllBlank(b) && x !in w && x != 32 && x != 9
    ensures x !in a + w + b
  {
  }

  lemma SplitAtEquals(left: seq<byte>, right: seq<byte>)
    requires 61 !in left
    ensures var body := left + [61] + right;
            IndexOf(body, EQUALS) == |left| && body[..|left|] == left && body[|left| + 1..] == right
  {
    assert left + [61] + right == left + ([61] + right);
    CutBehind(left, [61] + right, EQUALS);
  }

  /** A line without '=' before its comment, or with nothing but blanks before the '=', makes no call. */
  lemma IdleLine(body: seq<byte>, tail: seq<byte>)
    requires 0 !in body && 35 !in body && 13 !in body && (tail == [] || tail[0] == 35 || tail[0] == 13)
    requires 61 !in body || exists n :: 0 <= n < |body| && body[n] == 61 && AllBlank(body[..n])
    ensures PieceCalls(body + tail) == []
  {
    TailDropped(body, tail);
    if 61 in body {
      var n :| 0 <= n < |body| && body[n] == 61 && AllBlank(body[..n]);
      IndexUnique(body, EQUALS, n);
      TrimIs(body[..n], [], []);
      assert body[..n] + [] + [] == body[..n];
    } else {
      CutBehind(body, [], EQUALS);
      assert body + [] == body;
    }
  }

  // ----- one line, in place

  /** The C string that starts at an index. */
  function Str(line: array<byte>, from: nat): seq<byte>
    requires from <= line.Length
    reads line
  {
    Cut(line[from..], NUL)
  }

  /** There is a NUL at or behind the index. */
  ghost predicate Ends(line: array<byte>, from: nat)
    reads line
  {
    from < line.Length && from + |Str(line, from)| < line.Length
  }

  lemma IndexUnique(s: seq<byte>, c: byte, n: nat)
    requires n <= |s| && (forall i :: 0 <= i < n ==> s[i] != c) && (n < |s| ==> s[n] == c)
    ensures IndexOf(s, c) == n
  {
  }

  /** strchr from an index: the position of c in the C string, or its end. */
  method StrChr(line: array<byte>, from: nat, c: byte) returns (pos: nat, found: bool)
    requires Ends(line, from) && c != NUL
    ensures pos == from + IndexOf(Str(line, from), c) < line.Length
    ensures found <==> IndexOf(Str(line, from), c) < |Str(line, from)|
  {
    ghost var s := Str(line, from);
    pos := from;
    while line[pos] != NUL && line[pos] != c
      invariant from <= pos <= from + |s| < line.Length
      invariant forall i :: 0 <= i < pos - from ==> s[i] != c
      decreases line.Length - pos
    {
      assert line[from..][pos - from] == line[pos];
      pos := pos + 1;
    }
    assert line[from..][pos - from] == line[pos];
    assert pos < from + |s| ==> s[pos - from] == line[pos];
    IndexUnique(s, c, pos - from);
    found := line[pos] == c;
  }

  /** The line without byte pos: writing a NUL at pos cuts every string that reaches pos. */
  lemma CutAt(old_: seq<byte>, new_: seq<byte>, from: nat, pos: nat)
    requires |old_| == |new_| && from <= pos < |old_| && new_ == old_[pos := NUL]
    requires pos <= from + IndexOf(old_[from..], NUL)
    ensures Cut(new_[from..], NUL) == old_[from..pos] && IndexOf(new_[from..], NUL) == pos - from
  {
    IndexUnique(new_[from..], NUL, pos - from);
    assert forall i :: 0 <= i < pos - from ==> new_[from..][i] == old_[from..][i];
  }

  /** Cut the string at from at the first c, if there is one. */
  method CutInPlace(line: array<byte>, from: nat, c: byte)
    requires Ends(line, from) && c != NUL
    modifies line
    ensures Ends(line, from) && Str(line, from) == Cut(old(Str(line, from)), c)
    ensures line[..from] == old(line[..from])
  {
    ghost var s := Str(line, from);
    ghost var before := line[..];
    assert before[from..] == line[from..];
    var pos, found := StrChr(line, from, c);
    if found {
      line[pos] := NUL;
      CutAt(before, line[..], from, pos);
      assert line[..][from..] == line[from..];
      assert before[from..pos] == s[..pos - from];
    } else {
      assert s[..pos - from] == s;
    }
  }

  /** Step over leading blanks. */
  method SkipBlanks(line: array<byte>, from: nat) returns (pos: nat)
    requires Ends(line, from)
    ensures from <= pos <= from + |Str(line, from)| && Ends(line, pos)
    ensures Str(line, pos) == TrimLead(Str(line, from))
    ensures pos + |Str(line, pos)| == from + |Str(line, from)|
  {
    ghost var s := Str(line, from);
    pos := from;
    while IsBlank(line[pos])
      invariant from <= pos <= from + |s| < line.Length
      invariant BlankLen(s) == pos - from + BlankLen(s[pos - from..])
      decreases line.Length - pos
    {
      assert line[from..][pos - from] == line[pos];
      assert s[pos - from..][1..] == s[pos - from + 1..];
      pos := pos + 1;
    }
    assert line[from..][pos - from] == line[pos];
    assert line[from..][pos - from..] == line[pos..];
    IndexUnique(line[pos..], NUL, |s| - (pos - from));
    assert Str(line, pos) == s[pos - from..];
  }

  /** trim_trailing */
  method TrimTrailing(line: array<byte>, from: nat)
    requires Ends(line, from)
    modifies line
    ensures Ends(line, from) && Str(line, from) == TrimEnd(old(Str(line, from)))
    ensures line[..from] == old(line[..from])
    ensures line[from + |old(Str(line, from))|..] == old(line[from + |Str(line, from)|..])
  {
    ghost var s := Str(line, from);
    var end := from;
    while line[end] != NUL
      invariant from <= end <= from + |s| < line.Length
      decreases line.Length - end
    {
      assert line[from..][end - from] == line[end];
      end := end + 1;
    }
    assert line[from..][end - from] == line[end];
    ghost var stop := end;
    assert s[..end - from] == s;
    while end > from && IsBlank(line[end - 1])
      invariant from <= end <= stop == from + |s|
      invariant TrimEnd(s) == TrimEnd(s[..end - from])
      invariant line[from..end] == s[..end - from]
      invariant line[end] == NUL
      invariant line[..from] == old(line[..from]) && line[stop..] == old(line[stop..])
    {
      assert line[from..end][end - from - 1] == line[end - 1];
      assert s[..end - from][..end - from - 1] == s[..end - from - 1];
      assert line[from..end - 1] == line[from..end][..end - from - 1];
      line[end - 1] := NUL;
      end := end - 1;
    }
    assert end > from ==> s[..end - from][end - from - 1] == line[end - 1];
    assert line[from..][..end - from] == line[from..end];
    StringEnds(line[from..], s, end - from);
  }

  lemma StringEnds(a: seq<byte>, s: seq<byte>, n: nat)
    requires n <= |s| && n < |a| && a[..n] == s[..n] && a[n] == NUL
    requires forall i :: 0 <= i < |s| ==> s[i] != NUL
    ensures IndexOf(a, NUL) == n && Cut(a, NUL) == s[..n]
  {
    assert forall i :: 0 <= i < n ==> a[i] == a[..n][i] == s[..n][i] == s[i];
    IndexUnique(a, NUL, n);
  }

  /** Writing a NUL over the '=' leaves the value behind it. */
  lemma RestBehind(old_: seq<byte>, new_: seq<byte>, eq: nat)
    requires |old_| == |new_| && eq < IndexOf(old_, NUL) < |old_| && new_ == old_[eq := NUL]
    ensures Cut(new_[eq + 1..], NUL) == Cut(old_, NUL)[eq + 1..]
    ensures IndexOf(new_[eq + 1..], NUL) == IndexOf(old_, NUL) - eq - 1
  {
    var end := IndexOf(old_, NUL);
    var s := old_[eq + 1..end];
    assert new_[eq + 1..][..|s|] == s && new_[eq + 1..][|s|] == NUL;
    assert forall i :: 0 <= i < |s| ==> s[i] == old_[eq + 1 + i];
    StringEnds(new_[eq + 1..], s, |s|);
    assert s[..|s|] == s;
  }

  /** The part of parse_line behind the search for '=', which is at eq. */
  method ParseSides(line: array<byte>, eq: nat) returns (call: Call)
    requires Ends(line, 0) && eq < |Str(line, 0)|
    modifies line
    ensures var s := old(Str(line, 0));
            var key, val := Trim(s[..eq]), Trim(s[eq + 1..]);
            call == if key == [] then NoCall else Call(key, val)
  {
    hide IndexOf, TrimLead, TrimEnd, BlankLen;
    ghost var s := Str(line, 0);
    ghost var before := line[..];
    assert before[0..] == before == line[0..];
    line[eq] := NUL;
    CutAt(before, line[..], 0, eq);
    RestBehind(before, line[..], eq);
    assert line[..][0..] == line[0..];
    assert before[0..eq] == s[..eq];
    var val := eq + 1;
    assert line[..][val..] == line[val..];

    var key := SkipBlanks(line, 0);
    TrimSide(line, key, eq);
    ghost var keyText, after := Str(line, key), line[..];
    assert after[key..] == line[key..];

    var v := SkipBlanks(line, val);
    TrimTrailing(line, v);
    SameString(after, line[..], key, v);
    assert line[..][key..] == line[key..];
    StrEmpty(line, key);
    call := if line[key] == NUL then NoCall else Call(Str(line, key), Str(line, v));
  }

  /** Trimming the key, whose string ends at eq, leaves the value behind eq alone. */
  method TrimSide(line: array<byte>, key: nat, eq: nat)
    requires Ends(line, key) && key + |Str(line, key)| == eq && eq + 1 < line.Length
    modifies line
    ensures Ends(line, key) && Str(line, key) == TrimEnd(old(Str(line, key)))
    ensures key + |Str(line, key)| <= eq && line[eq + 1..] == old(line[eq + 1..])
  {
    TrimTrailing(line, key);
    TrimEndShorter(old(Str(line, key)));
    assert line[eq..][1..] == line[eq + 1..];
  }

  lemma TrimEndShorter(s: seq<byte>)
    ensures |TrimEnd(s)| <= |s|
  {
  }

  lemma StrEmpty(line: array<byte>, from: nat)
    requires Ends(line, from)
    ensures line[from] == NUL <==> Str(line, from) == []
  {
    assert line[from..][0] == line[from];
  }

  /** parse_line: the callback it makes, if any. */
  method ParseLine(line: array<byte>) returns (call: Call)
    requires Ends(line, 0)
    modifies line
    ensures call == LineCall(old(line[..]))
  {
    hide IndexOf, Trim, Cut;
    assert line[0..] == line[..];
    CutInPlace(line, 0, HASH);
    CutInPlace(line, 0, CR);
    var eq, found := StrChr(line, 0, EQUALS);
    if !found {
      return NoCall;
    }
    call := ParseSides(line, eq);
  }

  /** A string that ends before an unchanged prefix ends is unchanged. */
  lemma SameString(a: seq<byte>, b: seq<byte>, from: nat, upTo: nat)
    requires |a| == |b| && from <= |a| && from + IndexOf(a[from..], NUL) < upTo <= |a| && a[..upTo] == b[..upTo]
    ensures Cut(a[from..], NUL) == Cut(b[from..], NUL)
  {
    var n := IndexOf(a[from..], NUL);
    assert forall i :: 0 <= i <= n ==> a[from..][i] == a[..upTo][from + i] == b[from..][i];
    IndexUnique(b[from..], NUL, n);
  }

  // ----- the byte loop

  /** The text behind the last newline. */
  function Tail(text: seq<byte>): seq<byte> {
    if text == [] || text[|text| - 1] == NL then []
    else Tail(text[..|text| - 1]) + [text[|text| - 1]]
  }

  /** The callbacks of the newline-terminated lines. */
  function Done(text: seq<byte>): seq<Call> {
    if text == [] then []
    else
      var k := |text| - 1;
      if text[k] == NL then Done(text[..k]) + PieceCalls(Tail(text[..k])) else Done(text[..k])
  }

  lemma TailStep(text: seq<byte>, b: byte)
    ensures Tail(text + [b]) == if b == NL then [] else Tail(text) + [b]
    ensures Done(text + [b]) == if b == NL then Done(text) + PieceCalls(Tail(text)) else Done(text)
  {
    assert (text + [b])[..|text|] == text;
  }

  /** Processing byte by byte gives the same callbacks as splitting the whole text first. */
  lemma {:induction false} DoneIsSplit(text: seq<byte>)
    ensures CallsOf(Split(text)) == Done(text) + PieceCalls(Tail(text))
    decreases |text|
  {
    hide *;
    if text == [] {
      DoneEmpty();
    } else {
      var init, b := text[..|text| - 1], text[|text| - 1];
      assert text == init + [b];
      DoneIsSplit(init);
      DoneSnoc(init, b);
    }
  }

  lemma DoneSnoc(init: seq<byte>, b: byte)
    requires CallsOf(Split(init)) == Done(init) + PieceCalls(Tail(init))
    ensures CallsOf(Split(init + [b])) == Done(init + [b]) + PieceCalls(Tail(init + [b]))
  {
    hide Done, Tail, Split, CallsOf, PieceCalls, Extend;
    SplitSnoc(init, b);
    TailStep(init, b);
    TailIsLast(init);
    var lines := Split(init);
    CallsExtend(lines, b);
    if b != NL {
      AppendCancel(CallsOf(lines[..|lines| - 1]), Done(init), PieceCalls(Tail(init)));
    }
  }

  lemma DoneEmpty()
    ensures CallsOf(Split([])) == Done([]) + PieceCalls(Tail([]))
  {
    assert Split([]) == [[]];
    assert CallsOf([[]]) == PieceCalls([]) + [];
  }

  lemma CallsExtend(lines: seq<seq<byte>>, b: byte)
    requires |lines| >= 1
    ensures var head, last := lines[..|lines| - 1], lines[|lines| - 1];
            && CallsOf(lines) == CallsOf(head) + PieceCalls(last)
            && CallsOf(Extend(lines, b)) ==
               if b == NL then CallsOf(lines) + PieceCalls([]) else CallsOf(head) + PieceCalls(last + [b])
  {
    var head, last := lines[..|lines| - 1], lines[|lines| - 1];
    assert head + [last] == lines;
    CallsSnoc(head, last);
    CallsSnoc(lines, []);
    CallsSnoc(head, last + [b]);
  }

  lemma AppendCancel(a: seq<Call>, b: seq<Call>, c: seq<Call>)
    requires a + c == b + c
    ensures a == b
  {
    assert |a| == |b|;
    assert forall i :: 0 <= i < |a| ==> a[i] == (a + c)[i] && b[i] == (b + c)[i];
  }

  lemma {:induction false} CallsSnoc(lines: seq<seq<byte>>, last: seq<byte>)
    ensures CallsOf(lines + [last]) == CallsOf(lines) + PieceCalls(last)
  {
    if lines == [] {
      assert lines + [last] == [last];
      assert [last][1..] == [];
    } else {
      assert (lines + [last])[1..] == lines[1..] + [last];
      CallsSnoc(lines[1..], last);
    }
  }

  /** The pieces of a text after one more byte: a new piece is opened or the last one extended. */
  function Extend(lines: seq<seq<byte>>, b: byte): seq<seq<byte>>
    requires |lines| >= 1
  {
    if b == NL then lines + [[]] else lines[..|lines| - 1] + [lines[|lines| - 1] + [b]]
  }

  lemma ExtendBehind(first: seq<byte>, lines: seq<seq<byte>>, b: byte)
    requires |lines| >= 1
    ensures Extend([first] + lines, b) == [first] + Extend(lines, b)
  {
    var all := [first] + lines;
    assert all[|all| - 1] == lines[|lines| - 1];
    assert all[..|all| - 1] == [first] + lines[..|lines| - 1];
  }

  lemma {:induction false} SplitSnoc(text: seq<byte>, b: byte)
    ensures Split(text + [b]) == Extend(Split(text), b)
    decreases |text|
  {
    hide Split, Extend;
    var n := IndexOf(text, NL);
    var t := text + [b];
    if n == |text| {
      SplitOpen(text, b);
    } else {
      IndexUnique(t, NL, n);
      var rest := text[n + 1..];
      assert t[..n] == text[..n] && t[n + 1..] == rest + [b];
      SplitFirst(text, n);
      SplitFirst(t, n);
      SplitSnoc(rest, b);
      ExtendBehind(text[..n], Split(rest), b);
    }
  }

  lemma SplitFirst(text: seq<byte>, n: nat)
    requires n == IndexOf(text, NL) < |text|
    ensures Split(text) == [text[..n]] + Split(text[n + 1..])
  {
  }

  lemma SplitWhole(text: seq<byte>)
    requires IndexOf(text, NL) == |text|
    ensures Split(text) == [text]
  {
  }

  /** The case of a text without newlines. */
  lemma SplitOpen(text: seq<byte>, b: byte)
    requires IndexOf(text, NL) == |text|
    ensures Split(text + [b]) == Extend(Split(text), b)
  {
    hide Split, IndexOf;
    var t := text + [b];
    SplitWhole(text);
    if b == NL {
      IndexUnique(t, NL, |text|);
      SplitFirst(t, |text|);
      assert t[..|text|] == text && t[|text| + 1..] == [];
      IndexUnique([], NL, 0);
      SplitWhole([]);
    } else {
      IndexUnique(t, NL, |t|);
      SplitWhole(t);
    }
  }

  lemma {:induction false} TailIsLast(text: seq<byte>)
    ensures Tail(text) == Split(text)[|Split(text)| - 1]
    decreases |text|
  {
    if text != [] {
      var k := |text| - 1;
      assert text == text[..k] + [text[k]];
      TailIsLast(text[..k]);
      SplitSnoc(text[..k], text[k]);
    }
  }

  /** The line buffer after the bytes `done`: the piece being read, or a piece found too long. */
  ghost predicate Reading(done: seq<byte>, line: seq<byte>, lPos: nat, skip: bool) {
    && |line| == LINE_SZ
    && (skip <==> |Tail(done)| > LINE_SZ - 1)
    && (!skip ==> lPos == |Tail(done)| && line[..lPos] == Tail(done))
  }

  lemma ReadByte(done: seq<byte>, line: seq<byte>, lPos: nat, skip: bool, c: byte)
    requires Reading(done, line, lPos, skip) && c != NL
    ensures skip ==> Reading(done + [c], line, lPos, true)
    ensures !skip && lPos >= LINE_SZ - 1 ==> Reading(done + [c], line, lPos, true)
    ensures !skip && lPos < LINE_SZ - 1 ==> Reading(done + [c], line[lPos := c], lPos + 1, false)
    ensures Done(done + [c]) == Done(done)
  {
    TailStep(done, c);
    if !skip && lPos < LINE_SZ - 1 {
      assert line[lPos := c][..lPos + 1] == line[..lPos] + [c];
    }
  }

  lemma ReadNewline(done: seq<byte>, line: seq<byte>, lPos: nat, skip: bool)
    requires Reading(done, line, lPos, skip)
    ensures skip ==> Done(done + [NL]) == Done(done)
    ensures !skip ==> lPos < LINE_SZ && Done(done + [NL]) == Done(done) + PieceCalls(line[..lPos])
    ensures forall line': seq<byte> :: |line'| == LINE_SZ ==> Reading(done + [NL], line', 0, false)
  {
    TailStep(done, NL);
    if skip {
      LongPiece(Tail(done));
    }
  }

  lemma ReadEnd(done: seq<byte>, line: seq<byte>, lPos: nat, skip: bool)
    requires Reading(done, line, lPos, skip)
    ensures skip ==> CallsOf(Split(done)) == Done(done)
    ensures !skip ==> lPos < LINE_SZ && CallsOf(Split(done)) == Done(done) + PieceCalls(line[..lPos])
  {
    DoneIsSplit(done);
    if skip {
      LongPiece(Tail(done));
    }
  }

  /** dispatch_line: an empty line makes no callback. */
  method DispatchLine(line: array<byte>, len: nat) returns (call: Call)
    requires len < line.Length == LINE_SZ
    modifies line
    ensures call == LineCall(old(line[..len]))
    ensures PieceCalls(old(line[..len])) == if call == NoCall then [] else [call]
  {
    ghost var piece := line[..len];
    if len == 0 {
      assert piece == [];
      return NoCall;
    }
    line[len] := NUL;
    CutPiece(line[..], piece);
    call := ParseLine(line);
  }

  lemma CutPiece(line: seq<byte>, piece: seq<byte>)
    requires |piece| < |line| && line[..|piece|] == piece && line[|piece|] == NUL
    ensures IndexOf(line, NUL) < |line| && Cut(line, NUL) == Cut(piece, NUL)
    ensures LineCall(line) == LineCall(piece)
  {
    hide IndexOf, StringCall;
    var n := IndexOf(piece, NUL);
    assert forall i :: 0 <= i < |piece| ==> line[i] == line[..|piece|][i] == piece[i];
    IndexUnique(line, NUL, n);
    assert line[..n] == line[..|piece|][..n] == piece[..n];
  }

  /** The calls made when callback `cb` answers: all of them, or up to and including the first failure. */
  ghost predicate Outcome(expected: seq<Call>, cb: Callback, calls: seq<Call>, ret: int, readErr: int) {
    || (calls == expected && AllOk(calls, cb) && (if readErr < 0 then ret == readErr else ret >= 0))
    || (calls != [] && calls <= expected && AllOk(calls[..|calls| - 1], cb)
        && var k := |calls| - 1;
           calls[k].Call? && ret == cb(k, calls[k].key, calls[k].val) < 0)
  }

  /** Dispatch the piece in the line buffer and make its callback, if it asks for one. */
  method Deliver(line: array<byte>, len: nat, cb: Callback, before: seq<Call>) returns (ret: int, calls: seq<Call>)
    requires len < line.Length == LINE_SZ && AllOk(before, cb)
    modifies line
    ensures calls == before + PieceCalls(old(line[..len]))
    ensures ret >= 0 ==> AllOk(calls, cb)
    ensures ret < 0 ==> |calls| == |before| + 1 && calls[..|before|] == before && calls[|before|].Call? &&
                        ret == cb(|before|, calls[|before|].key, calls[|before|].val)
  {
    hide PieceCalls, LineCall;
    assert (before + PieceCalls(line[..len]))[..|before|] == before;
    var call := DispatchLine(line, len);
    ret, calls := 0, before;
    if call.Call? {
      ret := cb(|before|, call.key, call.val);
      calls := before + [call];
    }
  }

  /** A byte that is not a newline: kept, or the line is skipped once it is too long. */
  method StoreByte(line: array<byte>, lPos: nat, skip: bool, c: byte, ghost done: seq<byte>)
    returns (lPos': nat, skip': bool)
    requires Reading(done, line[..], lPos, skip) && c != NL
    modifies line
    ensures Reading(done + [c], line[..], lPos', skip') && Done(done + [c]) == Done(done)
  {
    ReadByte(done, line[..], lPos, skip, c);
    hide Tail, Done;
    if skip {
      return lPos, skip;
    }
    if lPos >= LINE_SZ - 1 {
      return lPos, true;
    }
    ghost var bytes := line[..];
    line[lPos] := c;
    assert line[..] == bytes[lPos := c];
    return lPos + 1, false;
  }

  /** What is left to read of the text: the unread part of the buffer, then the chunks to come. */
  ghost predicate Feed(text: seq<byte>, k: nat, unread: seq<byte>, rest: seq<byte>) {
    k <= |text| && text[k..] == unread + rest
  }

  lemma FeedTake(text: seq<byte>, k: nat, buf: array<byte>, i: nat, sz: nat, rest: seq<byte>)
    requires i < sz <= buf.Length && Feed(text, k, buf[i..sz], rest)
    ensures k < |text| && text[..k + 1] == text[..k] + [buf[i]]
    ensures Feed(text, k + 1, buf[i + 1..sz], rest)
  {
    assert text[k..][0] == text[k];
    assert text[k + 1..] == text[k..][1..];
    assert buf[i..sz][1..] == buf[i + 1..sz];
  }

  lemma FeedRefill(text: seq<byte>, k: nat, chunks: seq<seq<byte>>, n: nat, unread: seq<byte>)
    requires n < |chunks| && unread == [] && Feed(text, k, unread, Concat(chunks[n..]))
    ensures Feed(text, k, chunks[n], Concat(chunks[n + 1..]))
  {
    assert chunks[n..][1..] == chunks[n + 1..];
  }

  lemma FeedEnd(text: seq<byte>, k: nat, chunks: seq<seq<byte>>, unread: seq<byte>)
    requires Feed(text, k, unread, Concat(chunks[|chunks|..])) && unread == []
    ensures text[..k] == text
  {
  }

  /** pg_conf_parse. `chunks` is what the successive reads return and readErr < 0 the error that ends
      them (0 at end of file). However the text is cut into chunks, the callbacks are those of the text
      split at newlines; after a read error, those of the lines completed before it. */
  method ConfParse(chunks: seq<seq<byte>>, readErr: int, cb: Callback) returns (ret: int, calls: seq<Call>)
    requires forall c :: c in chunks ==> 0 < |c| <= BUF_SZ
    requires readErr <= 0
    ensures var text := Concat(chunks);
            Outcome(if readErr < 0 then Done(text) else CallsOf(Split(text)), cb, calls, ret, readErr)
  {
    hide Tail, Done, Split, CallsOf, PieceCalls, Reading, AllOk, Feed, Outcome, Concat;
    var buf := new byte[BUF_SZ](_ => 0);
    var line := new byte[LINE_SZ](_ => 0);
    var lPos: nat, i: nat, n: nat := 0, 0, 0;
    var sz: int := 0;
    var skip := false;
    ret, calls := 0, [];
    ghost var text, k := Concat(chunks), 0;
    ReadStart(line[..], text, chunks, cb);
    assert buf[0..0] == [];
    while true
      invariant 0 <= i <= sz <= BUF_SZ && n <= |chunks| && k <= |text|
      invariant Feed(text, k, buf[i..sz], Concat(chunks[n..]))
      invariant Reading(text[..k], line[..], lPos, skip)
      invariant calls == Done(text[..k]) && AllOk(calls, cb) && ret >= 0
      decreases |text| - k, |chunks| - n
    {
      if i >= sz {
        if n == |chunks| {
          FeedEnd(text, k, chunks, buf[i..sz]);
          sz := readErr;
          break;
        }
        FeedRefill(text, k, chunks, n, buf[i..sz]);
        sz := Refill(chunks[n], buf);
        n := n + 1;
        i := 0;
      }

      var c := buf[i];
      FeedTake(text, k, buf, i, sz, Concat(chunks[n..]));
      ghost var done := text[..k];
      i := i + 1;
      k := k + 1;

      if c == NL {
        ReadNewline(done, line[..], lPos, skip);
        if skip {
          skip := false;
          lPos := 0;
          continue;
        }
        assert line[..][..lPos] == line[..lPos];
        ret, calls := Deliver(line, lPos, cb, calls);
        lPos := 0;
        if ret < 0 {
          Stopped(text, done, text[..k], calls, cb, ret, readErr);
          return;
        }
        continue;
      }

      lPos, skip := StoreByte(line, lPos, skip, c, done);
    }

    if sz < 0 {
      Finished(Done(text), cb, calls, sz, readErr);
      return sz, calls;
    }
    ReadEnd(text, line[..], lPos, skip);
    if !skip {
      assert line[..][..lPos] == line[..lPos];
      ret, calls := Deliver(line, lPos, cb, calls);
    }
    Finished(CallsOf(Split(text)), cb, calls, ret, readErr);
  }

  /** A callback of a line inside the text failed. */
  lemma Stopped(
    text: seq<byte>, was: seq<byte>, done: seq<byte>, calls: seq<Call>, cb: Callback, ret: int, readErr: int)
    requires done <= text && AllOk(Done(was), cb)
    requires calls == Done(done) && |calls| == |Done(was)| + 1 && Done(was) <= calls
    requires var k := |calls| - 1; calls[k].Call? && ret == cb(k, calls[k].key, calls[k].val) < 0
    ensures Outcome(if readErr < 0 then Done(text) else CallsOf(Split(text)), cb, calls, ret, readErr)
  {
    CallsPrefix(text, done);
    assert calls[..|calls| - 1] == Done(was);
  }

  /** All lines were read; only the last callback can have failed. */
  lemma Finished(expected: seq<Call>, cb: Callback, calls: seq<Call>, ret: int, readErr: int)
    requires calls == expected && (readErr < 0 ==> ret == readErr && AllOk(calls, cb))
    requires ret >= 0 ==> AllOk(calls, cb)
    requires ret < 0 && readErr >= 0 ==>
      calls != [] && AllOk(calls[..|calls| - 1], cb)
      && var k := |calls| - 1; calls[k].Call? && ret == cb(k, calls[k].key, calls[k].val)
    ensures Outcome(expected, cb, calls, ret, readErr)
  {
  }

  lemma ReadStart(line: seq<byte>, text: seq<byte>, chunks: seq<seq<byte>>, cb: Callback)
    requires |line| == LINE_SZ && text == Concat(chunks)
    ensures Reading(text[..0], line, 0, false) && Done(text[..0]) == [] && AllOk([], cb)
    ensures Feed(text, 0, [], Concat(chunks[0..]))
  {
    assert chunks[0..] == chunks && text[0..] == text;
  }

  method Refill(chunk: seq<byte>, buf: array<byte>) returns (sz: nat)
    requires |chunk| <= buf.Length
    modifies buf
    ensures sz == |chunk| && buf[0..sz] == chunk
  {
    sz := |chunk|;
    for j := 0 to sz
      invariant buf[0..j] == chunk[..j]
    {
      buf[j] := chunk[j];
    }
  }

  lemma LongPiece(piece: seq<byte>)
    requires |piece| > LINE_SZ - 1
    ensures PieceCalls(piece) == []
  {
  }

  /** The calls of a prefix of the text come first, whether or not the text ends well. */
  lemma CallsPrefix(text: seq<byte>, done: seq<byte>)
    requires done <= text
    ensures Done(done) <= Done(text) <= CallsOf(Split(text))
    decreases |text| - |done|
  {
    hide Done, Tail, Split, CallsOf, PieceCalls;
    if |done| == |text| {
      assert done == text;
      DoneIsSplit(text);
    } else {
      var b := text[|done|];
      DoneGrows(done, b);
      assert done + [b] <= text;
      CallsPrefix(text, done + [b]);
    }
  }

  lemma DoneGrows(text: seq<byte>, b: byte)
    ensures Done(text) <= Done(text + [b])
  {
    TailStep(text, b);
  }
}
