/** String helpers shared by the naming and quoting modules: runs of one
    character, decimal numerals, trimming and ASCII case. */
module Text {

  lemma Regroup<T>(a: seq<T>, b: seq<T>, c: seq<T>)
    ensures a + b + c == a + (b + c)
  {
  }

  lemma Peel<T>(done: seq<T>, rest: seq<T>)
    requires rest != []
    ensures done + [rest[0]] + rest[1..] == done + rest
  {
  }

  function Repeat(c: char, n: nat): (r: string)
    ensures |r| == n
    ensures forall i :: 0 <= i < n ==> r[i] == c
  {
    seq(n, _ => c)
  }

  predicate IsDigit(c: char) {
    '0' <= c <= '9'
  }

  /** `n` written in decimal, as `u32::to_string` writes it. */
  function Decimal(n: nat): (r: string)
    ensures |r| >= 1
    ensures forall i :: 0 <= i < |r| ==> IsDigit(r[i])
  {
    if n < 10 then [('0' as int + n) as char] else Decimal(n / 10) + [('0' as int + n % 10) as char]
  }

  /** The number a numeral stands for; the partner of `Decimal`. */
  function Value(s: string): int {
    if s == [] then 0 else 10 * Value(s[..|s| - 1]) + (s[|s| - 1] as int - '0' as int)
  }

  lemma {:induction false} ValueOfDecimal(n: nat)
    ensures Value(Decimal(n)) == n
  {
    if n < 10 {
      assert Decimal(n)[..0] == [];
    } else {
      ValueOfDecimal(n / 10);
      assert Decimal(n)[..|Decimal(n)| - 1] == Decimal(n / 10);
    }
  }

  lemma DecimalInjective(m: nat, n: nat)
    requires Decimal(m) == Decimal(n)
    ensures m == n
  {
    ValueOfDecimal(m);
    ValueOfDecimal(n);
  }

  /** A number below 10,000 takes at most four digits. */
  lemma {:induction false} DecimalLength(n: nat, digits: nat)
    requires digits >= 1 && n < Power10(digits)
    ensures |Decimal(n)| <= digits
    decreases digits
  {
    if n >= 10 {
      assert digits >= 2;
      DecimalLength(n / 10, digits - 1);
    }
  }

  function Power10(k: nat): nat {
    if k == 0 then 1 else 10 * Power10(k - 1)
  }

  function Lower(c: char): char {
    if 'A' <= c <= 'Z' then (c as int + 32) as char else c
  }

  /** ASCII lower-casing, leaving everything else alone. */
  function ToLower(s: string): (r: string)
    ensures |r| == |s|
    ensures forall i :: 0 <= i < |s| ==> r[i] == Lower(s[i])
  {
    seq(|s|, i requires 0 <= i < |s| => Lower(s[i]))
  }

  lemma ToLowerIdempotent(s: string)
    ensures ToLower(ToLower(s)) == ToLower(s)
  {
  }

  /** Characters with the Unicode property White_Space, which is what `trim` drops. */
  predicate IsSpace(c: char) {
    var u := c as int;
    || 0x09 <= u <= 0x0D || u == 0x20 || u == 0x85 || u == 0xA0 || u == 0x1680
    || 0x2000 <= u <= 0x200A || u == 0x2028 || u == 0x2029 || u == 0x202F || u == 0x205F || u == 0x3000
  }

  /** How many characters from `i` on are dropped at the start. */
  function Leading(s: string, drop: char -> bool, i: nat): (k: nat)
    requires i <= |s|
    ensures i <= k <= |s| && (k < |s| ==> !drop(s[k]))
    decreases |s| - i
  {
    if i < |s| && drop(s[i]) then Leading(s, drop, i + 1) else i
  }

  /** Where what is kept ends, when everything from `i` on is dropped. */
  function Trailing(s: string, drop: char -> bool, i: nat): (k: nat)
    requires i <= |s|
    ensures k <= i && (k > 0 ==> !drop(s[k - 1]))
    ensures forall j :: k <= j < i ==> drop(s[j])
    decreases i
  {
    if i > 0 && drop(s[i - 1]) then Trailing(s, drop, i - 1) else i
  }

  function TrimStart(s: string, drop: char -> bool): string {
    s[Leading(s, drop, 0)..]
  }

  function TrimEnd(s: string, drop: char -> bool): (r: string)
    ensures r <= s && (r == [] || !drop(r[|r| - 1]))
    ensures forall j :: |r| <= j < |s| ==> drop(s[j])
  {
    s[..Trailing(s, drop, |s|)]
  }

  function Trim(s: string, drop: char -> bool): (r: string)
    ensures |r| <= |s|
    ensures r == [] || (!drop(r[0]) && !drop(r[|r| - 1]))
  {
    TrimEnd(TrimStart(s, drop), drop)
  }

  /** What trimming leaves is one stretch of what there was. */
  lemma TrimIsInfix(s: string, drop: char -> bool) returns (k: nat)
    ensures k + |Trim(s, drop)| <= |s| && Trim(s, drop) == s[k..k + |Trim(s, drop)|]
  {
    k := Leading(s, drop, 0);
  }

  lemma TrimNothing(s: string, drop: char -> bool)
    requires s == [] || (!drop(s[0]) && !drop(s[|s| - 1]))
    ensures Trim(s, drop) == s
  {
  }

  /** Where the first dot is, from `i` on, or the end. */
  function FirstDot(s: string, i: nat): (k: nat)
    requires i <= |s|
    ensures i <= k <= |s| && (k < |s| ==> s[k] == '.')
    ensures forall j :: i <= j < k ==> s[j] != '.'
    decreases |s| - i
  {
    if i < |s| && s[i] != '.' then FirstDot(s, i + 1) else i
  }

  lemma FirstDotAt(s: string, k: nat)
    requires k <= |s| && (forall j :: 0 <= j < k ==> s[j] != '.') && (k < |s| ==> s[k] == '.')
    ensures FirstDot(s, 0) == k
  {
  }

  /** Where a character picked out last occurs among the first `end`, or -1. */
  function LastWhere(s: string, picked: char -> bool, end: nat): (i: int)
    requires end <= |s|
    ensures -1 <= i < end && (i >= 0 ==> picked(s[i]))
    ensures forall j :: i < j < end ==> !picked(s[j])
    decreases end
  {
    if end == 0 then -1 else if picked(s[end - 1]) then end - 1 else LastWhere(s, picked, end - 1)
  }

  /** Where `c` last occurs in `s`, or -1. */
  function LastIndex(s: string, c: char): (i: int)
    ensures -1 <= i < |s|
    ensures i >= 0 ==> s[i] == c
    ensures forall j :: i < j < |s| ==> s[j] != c
  {
    LastWhere(s, x => x == c, |s|)
  }
}
