/** UTF-8 as RFC 3629 section 3 defines it, over Unicode scalar values, with the
    lossy decoding that turns an ill-formed payload into a message: every
    maximal ill-formed run becomes one U+FFFD. */
module Utf8 {
  import opened Basics

  predicate IsContinuation(b: Byte) {
    0x80 <= b < 0xC0
  }

  /** How many bytes a character takes. */
  function Width(c: char): (w: nat)
    ensures 1 <= w <= 4
  {
    var u := c as int;
    if u < 0x80 then 1 else if u < 0x800 then 2 else if u < 0x10000 then 3 else 4
  }

  function EncodeChar(c: char): (b: seq<Byte>)
    ensures |b| == Width(c)
    ensures c as int < 0x80 ==> b == [c as int]
    ensures !IsContinuation(b[0])
    ensures forall i :: 1 <= i < |b| ==> IsContinuation(b[i])
  {
    var u := c as int;
    if u < 0x80 then [u]
    else if u < 0x800 then [0xC0 + u / 64, Group(u)]
    else if u < 0x10000 then [0xE0 + u / 64 / 64, Group(u / 64), Group(u)]
    else [0xF0 + u / 64 / 64 / 64, Group(u / 64 / 64), Group(u / 64), Group(u)]
  }

  /** The low six bits, as a continuation byte. */
  function Group(u: nat): (b: Byte)
    ensures IsContinuation(b)
  {
    0x80 + u % 64
  }

  /** The first `n` characters, encoded. */
  function EncodeTo(s: string, n: nat): (b: seq<Byte>)
    requires n <= |s|
    ensures |b| == LenTo(s, n)
  {
    if n == 0 then [] else EncodeTo(s, n - 1) + EncodeChar(s[n - 1])
  }

  /** How many bytes the first `n` characters take. */
  function LenTo(s: string, n: nat): (k: nat)
    requires n <= |s|
    ensures k >= n
  {
    if n == 0 then 0 else LenTo(s, n - 1) + Width(s[n - 1])
  }

  function Encode(s: string): (b: seq<Byte>)
    ensures |b| == Len(s)
  {
    EncodeTo(s, |s|)
  }

  /** The length in bytes of a string, which is what `str::len` measures. */
  function Len(s: string): (n: nat)
    ensures n >= |s|
  {
    LenTo(s, |s|)
  }

  /** A prefix of the characters encodes to a prefix of the bytes. */
  lemma {:induction false} EncodeToPrefix(s: string, m: nat, n: nat)
    requires m <= n <= |s|
    ensures EncodeTo(s, m) <= EncodeTo(s, n) && LenTo(s, n) >= LenTo(s, m) + (n - m)
    decreases n
  {
    if m < n {
      EncodeToPrefix(s, m, n - 1);
    }
  }

  lemma {:induction false} EncodeToOfPrefix(p: string, s: string, n: nat)
    requires p <= s && n <= |p|
    ensures EncodeTo(s, n) == EncodeTo(p, n) && LenTo(s, n) == LenTo(p, n)
  {
    if n > 0 {
      EncodeToOfPrefix(p, s, n - 1);
    }
  }

  lemma {:induction false} EncodeToConcat(s: string, t: string, n: nat)
    requires n <= |t|
    ensures EncodeTo(s + t, |s| + n) == Encode(s) + EncodeTo(t, n)
    ensures LenTo(s + t, |s| + n) == Len(s) + LenTo(t, n)
  {
    if n == 0 {
      EncodeToOfPrefix(s, s + t, |s|);
    } else {
      EncodeToConcat(s, t, n - 1);
      Associate(Encode(s), EncodeTo(t, n - 1), EncodeChar(t[n - 1]));
    }
  }

  lemma Associate(a: seq<Byte>, b: seq<Byte>, c: seq<Byte>)
    ensures a + b + c == a + (b + c)
  {
  }

  lemma EncodeConcat(s: string, t: string)
    ensures Encode(s + t) == Encode(s) + Encode(t)
    ensures Len(s + t) == Len(s) + Len(t)
  {
    EncodeToConcat(s, t, |t|);
  }

  lemma EncodeFirst(s: string)
    requires s != []
    ensures Encode(s) == EncodeChar(s[0]) + Encode(s[1..])
  {
    assert s == [s[0]] + s[1..];
    EncodeConcat([s[0]], s[1..]);
    assert EncodeTo([s[0]], 1) == EncodeTo([s[0]], 0) + EncodeChar(s[0]);
  }

  lemma {:induction false} AsciiLenTo(s: string, n: nat)
    requires n <= |s| && forall i :: 0 <= i < n ==> s[i] as int < 0x80
    ensures LenTo(s, n) == n
  {
    if n > 0 {
      AsciiLenTo(s, n - 1);
    }
  }

  lemma AsciiLen(s: string)
    requires forall i :: 0 <= i < |s| ==> s[i] as int < 0x80
    ensures Len(s) == |s|
  {
    AsciiLenTo(s, |s|);
  }

  // Decoding

  /** What one decoding step makes of a non-empty run of bytes. */
  datatype Step = Scalar(c: char, width: nat) | IllFormed(width: nat)

  // The scalar value spelled by a lead byte and its continuation bytes.

  function Point2(w: int, x: int): int {
    (w - 0xC0) * 64 + (x - 0x80)
  }

  function Point3(w: int, x: int, y: int): int {
    ((w - 0xE0) * 64 + (x - 0x80)) * 64 + (y - 0x80)
  }

  function Point4(w: int, x: int, y: int, z: int): int {
    (((w - 0xF0) * 64 + (x - 0x80)) * 64 + (y - 0x80)) * 64 + (z - 0x80)
  }

  predicate IsLow(b: seq<Byte>, i: nat, lo: int, hi: int) {
    i < |b| && lo <= b[i] <= hi
  }

  function TwoByte(b: seq<Byte>): Step
    requires |b| > 0 && 0xC2 <= b[0] <= 0xDF
  {
    if IsLow(b, 1, 0x80, 0xBF)
    then Scalar(Point2(b[0], b[1]) as char, 2)
    else IllFormed(1)
  }

  function ThreeByte(b: seq<Byte>): Step
    requires |b| > 0 && 0xE0 <= b[0] <= 0xEF
  {
    var lo := if b[0] == 0xE0 then 0xA0 else 0x80;
    var hi := if b[0] == 0xED then 0x9F else 0xBF;
    if !IsLow(b, 1, lo, hi) then IllFormed(1)
    else if !IsLow(b, 2, 0x80, 0xBF) then IllFormed(2)
    else Scalar(Point3(b[0], b[1], b[2]) as char, 3)
  }

  function FourByte(b: seq<Byte>): Step
    requires |b| > 0 && 0xF0 <= b[0] <= 0xF4
  {
    var lo := if b[0] == 0xF0 then 0x90 else 0x80;
    var hi := if b[0] == 0xF4 then 0x8F else 0xBF;
    if !IsLow(b, 1, lo, hi) then IllFormed(1)
    else if !IsLow(b, 2, 0x80, 0xBF) then IllFormed(2)
    else if !IsLow(b, 3, 0x80, 0xBF) then IllFormed(3)
    else Scalar(Point4(b[0], b[1], b[2], b[3]) as char, 4)
  }

  function DecodeStep(b: seq<Byte>): (s: Step)
    requires |b| > 0
    ensures 1 <= s.width <= |b|
  {
    if b[0] < 0x80 then Scalar(b[0] as char, 1)
    else if 0xC2 <= b[0] <= 0xDF then TwoByte(b)
    else if 0xE0 <= b[0] <= 0xEF then ThreeByte(b)
    else if 0xF0 <= b[0] <= 0xF4 then FourByte(b)
    else IllFormed(1)
  }

  /** `String::from_utf8_lossy`. */
  function Lossy(b: seq<Byte>): string
    decreases |b|
  {
    if b == [] then []
    else
      var s := DecodeStep(b);
      [if s.Scalar? then s.c else '\U{FFFD}'] + Lossy(b[s.width..])
  }

  predicate WellFormed(b: seq<Byte>)
    decreases |b|
  {
    b == [] || (DecodeStep(b).Scalar? && WellFormed(b[DecodeStep(b).width..]))
  }

  lemma DecodeEncodedChar(c: char, rest: seq<Byte>)
    ensures DecodeStep(EncodeChar(c) + rest) == Scalar(c, |EncodeChar(c)|)
  {
    var u := c as int;
    var e := EncodeChar(c);
    var b := e + rest;
    if 0x80 <= u < 0x800 {
      assert b[0] == e[0] && b[1] == e[1];
    } else if 0x800 <= u < 0x10000 {
      assert b[0] == e[0] && b[1] == e[1] && b[2] == e[2];
      assert u / 64 == u / 64 / 64 * 64 + u / 64 % 64;
      assert Point3(e[0], e[1], e[2]) == u;
    } else if 0x10000 <= u {
      assert b[0] == e[0] && b[1] == e[1] && b[2] == e[2] && b[3] == e[3];
      assert u / 64 == u / 64 / 64 * 64 + u / 64 % 64;
      assert u / 64 / 64 == u / 64 / 64 / 64 * 64 + u / 64 / 64 % 64;
      assert Point4(e[0], e[1], e[2], e[3]) == u;
    }
  }

  lemma EncodeDecodedChar(b: seq<Byte>)
    requires |b| > 0 && DecodeStep(b).Scalar?
    ensures EncodeChar(DecodeStep(b).c) == b[..DecodeStep(b).width]
  {
    if 0xC2 <= b[0] <= 0xDF {
      Quotient(b[0] - 0xC0, b[1]);
    } else if 0xE0 <= b[0] <= 0xEF {
      Quotient((b[0] as int - 0xE0) * 64 + (b[1] as int - 0x80), b[2]);
      Quotient(b[0] as int - 0xE0, b[1]);
    } else if b[0] >= 0xF0 {
      Quotient(((b[0] as int - 0xF0) * 64 + (b[1] as int - 0x80)) * 64 + (b[2] as int - 0x80), b[3]);
      Quotient((b[0] as int - 0xF0) * 64 + (b[1] as int - 0x80), b[2]);
      Quotient(b[0] as int - 0xF0, b[1]);
    }
  }

  lemma Quotient(q: int, x: int)
    requires 0x80 <= x < 0xC0
    ensures (q * 64 + (x - 0x80)) / 64 == q
    ensures (q * 64 + (x - 0x80)) % 64 == x - 0x80
  {
  }

  /** Decoding what was encoded gives the string back, and it is well formed. */
  lemma {:induction false} LossyOfEncode(s: string)
    ensures Lossy(Encode(s)) == s
    ensures WellFormed(Encode(s))
  {
    if s != [] {
      var head, rest := EncodeChar(s[0]), Encode(s[1..]);
      EncodeFirst(s);
      DecodeEncodedChar(s[0], rest);
      assert (head + rest)[|head|..] == rest;
      LossyOfEncode(s[1..]);
    }
  }

  /** Encoding what was decoded gives the bytes back exactly when they were well formed. */
  lemma {:induction false} EncodeOfLossy(b: seq<Byte>)
    ensures Encode(Lossy(b)) == b <==> WellFormed(b)
  {
    if WellFormed(b) {
      EncodeOfWellFormed(b);
    } else if Encode(Lossy(b)) == b {
      LossyOfEncode(Lossy(b));
    }
  }

  lemma {:induction false} EncodeOfWellFormed(b: seq<Byte>)
    requires WellFormed(b)
    ensures Encode(Lossy(b)) == b
    decreases |b|
  {
    if b != [] {
      var s := DecodeStep(b);
      EncodeDecodedChar(b);
      EncodeOfWellFormed(b[s.width..]);
      EncodeFirst(Lossy(b));
      assert Lossy(b)[1..] == Lossy(b[s.width..]);
    }
  }

  /** How many bytes replacement adds: each ill-formed run becomes three. */
  function Growth(b: seq<Byte>): nat
    decreases |b|
  {
    if b == [] then 0
    else
      var s := DecodeStep(b);
      (if s.IllFormed? then 3 - s.width else 0) + Growth(b[s.width..])
  }

  lemma StepLen(b: seq<Byte>)
    requires |b| > 0
    ensures var s := DecodeStep(b);
            Width(if s.Scalar? then s.c else '\U{FFFD}') == s.width + if s.IllFormed? then 3 - s.width else 0
  {
    if DecodeStep(b).Scalar? {
      EncodeDecodedChar(b);
    }
  }

  /** What replacement yields is longer than what was there by exactly its growth. */
  lemma {:induction false} LossyLen(b: seq<Byte>)
    ensures Len(Lossy(b)) == |b| + Growth(b)
    decreases |b|
  {
    if b != [] {
      var s := DecodeStep(b);
      StepLen(b);
      LossyLen(b[s.width..]);
      LenFirst(Lossy(b));
      assert Lossy(b)[1..] == Lossy(b[s.width..]);
    }
  }

  lemma LenFirst(s: string)
    requires s != []
    ensures Len(s) == Width(s[0]) + Len(s[1..])
  {
    EncodeFirst(s);
  }

  /** Bytes that start nothing are replaced one by one. */
  lemma {:induction false} JunkGrows(b: seq<Byte>)
    requires forall i :: 0 <= i < |b| ==> b[i] == 0xFF
    ensures Growth(b) == 2 * |b|
    decreases |b|
  {
    if b != [] {
      assert DecodeStep(b) == IllFormed(1);
      JunkGrows(b[1..]);
    }
  }

  // Character boundaries

  /** `str::is_char_boundary` on the bytes of a string. */
  predicate IsBoundary(b: seq<Byte>, i: nat) {
    i == 0 || i == |b| || (i < |b| && !IsContinuation(b[i]))
  }

  /** How many whole characters, at least `k`, fit in `room` bytes. */
  function FitCount(s: string, room: nat, k: nat): (n: nat)
    requires k <= |s| && LenTo(s, k) <= room
    ensures n <= |s| && LenTo(s, n) <= room && (n < |s| ==> LenTo(s, n + 1) > room)
    decreases |s| - k
  {
    if k < |s| && LenTo(s, k + 1) <= room then FitCount(s, room, k + 1) else k
  }

  /** The longest prefix of whole characters that takes at most `room` bytes. */
  function Fit(s: string, room: nat): (r: string)
    ensures r <= s && Len(r) <= room
  {
    EncodeToOfPrefix(s[..FitCount(s, room, 0)], s, FitCount(s, room, 0));
    s[..FitCount(s, room, 0)]
  }

  /** No shorter prefix is `Fit`, and no longer one fits. */
  lemma FitExactly(s: string, room: nat, n: nat)
    requires n <= |s|
    ensures |Fit(s, room)| >= n <==> LenTo(s, n) <= room
  {
    var k := FitCount(s, room, 0);
    if n <= k {
      EncodeToPrefix(s, n, k);
    } else {
      EncodeToPrefix(s, k + 1, n);
    }
  }

  /** The bytes of character `k` are where the characters before it end. */
  lemma BytesOfChar(s: string, k: nat, j: nat)
    requires k < |s| && j < Width(s[k])
    ensures LenTo(s, k) + j < Len(s) && Encode(s)[LenTo(s, k) + j] == EncodeChar(s[k])[j]
  {
    EncodeToPrefix(s, k + 1, |s|);
    assert EncodeTo(s, k + 1)[LenTo(s, k) + j] == EncodeChar(s[k])[j];
  }

  /** `Fit` ends at a character boundary... */
  lemma FitEndsAtBoundary(s: string, room: nat)
    ensures Encode(Fit(s, room)) <= Encode(s)
    ensures IsBoundary(Encode(s), Len(Fit(s, room)))
  {
    var fit, k := Fit(s, room), FitCount(s, room, 0);
    EncodeToOfPrefix(fit, s, k);
    EncodeToPrefix(s, k, |s|);
    if k < |s| {
      BytesOfChar(s, k, 0);
    }
  }

  /** ...and there is none after it within the room. */
  lemma NoBoundaryAfterFit(s: string, room: nat, i: nat)
    requires Len(Fit(s, room)) < i <= room && i <= Len(s)
    ensures !IsBoundary(Encode(s), i)
  {
    var fit, k := Fit(s, room), FitCount(s, room, 0);
    EncodeToOfPrefix(fit, s, k);
    assert LenTo(s, k) < i < LenTo(s, k) + Width(s[k]);
    BytesOfChar(s, k, i - LenTo(s, k));
  }
}
