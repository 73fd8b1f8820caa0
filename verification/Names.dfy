/** Hostnames, fallback identifiers and network labels (daemon/src/names.rs).
    Labels follow RFC 1123 section 2.1 within the limit of RFC 1035 section 2.3.4. */
module Names {
  import opened Basics
  import opened Text
  import Utf8

  const MAX_LEN := 63
  const FALLBACK_LEN := 8
  const MAX_SUFFIX := 9999

  /** An endpoint id as text. A real one is 64 lower-case hex characters, but a
      roster can carry anything. */
  type Id = string

  predicate IsHex(c: char) {
    '0' <= c <= '9' || 'a' <= c <= 'f'
  }

  predicate IsEndpointId(id: Id) {
    |id| == 64 && forall i :: 0 <= i < |id| ==> IsHex(id[i])
  }

  function Fallback(id: Id): (f: string)
    ensures |f| <= FALLBACK_LEN
  {
    if |id| <= FALLBACK_LEN then id else id[..FALLBACK_LEN]
  }

  predicate LooksLikeFallback(name: string) {
    Utf8.Len(name) == FALLBACK_LEN && forall i :: 0 <= i < |name| ==> IsHex(name[i])
  }

  predicate IsLabelChar(c: char) {
    'a' <= c <= 'z' || '0' <= c <= '9' || c == '-'
  }

  /** A legal DNS label, in lower case. */
  predicate IsLabel(s: string) {
    && 1 <= |s| <= MAX_LEN
    && (forall i :: 0 <= i < |s| ==> IsLabelChar(s[i]))
    && s[0] != '-' && s[|s| - 1] != '-'
  }

  datatype NameError = Empty | TooLong | BadCharacter | EdgeHyphen | AnothersFallback

  function Normal(requested: string): string {
    ToLower(Trim(requested, IsSpace))
  }

  function Validate(requested: string, claimant: Id): Result<string, NameError> {
    var name := Normal(requested);
    if name == [] then Err(Empty)
    else if Utf8.Len(name) > MAX_LEN then Err(TooLong)
    else if exists i :: 0 <= i < |name| && !IsLabelChar(name[i]) then Err(BadCharacter)
    else if name[0] == '-' || name[|name| - 1] == '-' then Err(EdgeHyphen)
    else if LooksLikeFallback(name) && name != Fallback(claimant) then Err(AnothersFallback)
    else Ok(name)
  }

  /** A name its claimant may hold: a legal label that is nobody else's fallback. */
  predicate LegalFor(name: string, claimant: Id) {
    IsLabel(name) && (LooksLikeFallback(name) ==> name == Fallback(claimant))
  }

  /** A request is granted exactly when, trimmed and lower-cased, it is a name
      the claimant may hold; and what is granted is that name. */
  lemma ValidateExactly(requested: string, claimant: Id)
    ensures Validate(requested, claimant).Ok? <==> LegalFor(Normal(requested), claimant)
    ensures Validate(requested, claimant).Ok? ==> Validate(requested, claimant).value == Normal(requested)
  {
    var name := Normal(requested);
    if forall i :: 0 <= i < |name| ==> IsLabelChar(name[i]) {
      Utf8.AsciiLen(name);
    }
  }

  lemma NormalOfLabel(name: string)
    requires IsLabel(name)
    ensures Normal(name) == name
  {
    TrimNothing(name, IsSpace);
    LabelLower(name);
  }

  /** A granted name is granted again, unchanged: asking for what you were given
      is never refused or altered. */
  lemma ValidateLegal(name: string, claimant: Id)
    requires LegalFor(name, claimant)
    ensures Validate(name, claimant) == Ok(name)
  {
    NormalOfLabel(name);
    ValidateExactly(name, claimant);
  }

  // Suffixes

  predicate IsHyphen(c: char) {
    c == '-'
  }

  function Take(s: string, n: nat): (r: string)
    ensures r <= s && |r| <= n
  {
    if |s| <= n then s else s[..n]
  }

  function WithSuffix(base: string, suffix: string): string {
    var tag := "-" + suffix;
    var keep := if Utf8.Len(tag) > MAX_LEN then 0 else MAX_LEN - Utf8.Len(tag);
    var trimmed := TrimEnd(Take(base, keep), IsHyphen);
    if trimmed == [] then suffix else trimmed + tag
  }

  /** The numbered candidates for a base, by number. */
  function Numbered(base: string): nat -> string {
    (n: nat) => WithSuffix(base, Decimal(n))
  }

  /** The first of the candidates from number `n` that is free, or the last
      resort, which is not asked about. */
  function FirstFree(candidate: nat -> string, last: string, taken: string -> bool, n: nat): string
    requires n <= MAX_SUFFIX + 1
    decreases MAX_SUFFIX + 1 - n
  {
    if n == MAX_SUFFIX + 1 then last
    else if !taken(candidate(n)) then candidate(n)
    else FirstFree(candidate, last, taken, n + 1)
  }

  function LastResort(requested: string, claimant: Id): string {
    WithSuffix(requested, Fallback(claimant))
  }

  function Dedupe(requested: string, claimant: Id, taken: string -> bool): string {
    if !taken(requested) then requested
    else FirstFree(Numbered(requested), LastResort(requested, claimant), taken, 1)
  }

  /** What `Dedupe` can return: a suffix a label can carry. */
  predicate IsSuffix(s: string) {
    1 <= |s| <= FALLBACK_LEN && forall i :: 0 <= i < |s| ==> IsHex(s[i])
  }

  lemma SuffixOfNumber(n: nat)
    requires n <= MAX_SUFFIX
    ensures IsSuffix(Decimal(n)) && |Decimal(n)| <= 4
  {
    assert Power10(4) == 10000;
    DecimalLength(n, 4);
  }

  lemma SuffixOfFallback(claimant: Id)
    requires IsEndpointId(claimant)
    ensures IsSuffix(Fallback(claimant)) && |Fallback(claimant)| == FALLBACK_LEN
  {
  }

  lemma SuffixedShape(base: string, suffix: string)
    requires IsLabel(base) && IsSuffix(suffix)
    ensures var trimmed := TrimEnd(Take(base, MAX_LEN - 1 - |suffix|), IsHyphen);
            && WithSuffix(base, suffix) == trimmed + ("-" + suffix)
            && 1 <= |trimmed| <= MAX_LEN - 1 - |suffix| && trimmed <= base
  {
    Utf8.AsciiLen("-" + suffix);
    assert Take(base, MAX_LEN - 1 - |suffix|)[0] == base[0];
  }

  /** A suffixed label is a non-empty head of the base, a hyphen and the suffix,
      so it is a legal label, and never shaped like a fallback. */
  lemma SuffixedLabel(base: string, suffix: string)
    requires IsLabel(base) && IsSuffix(suffix)
    ensures var r := WithSuffix(base, suffix);
            && IsLabel(r) && !LooksLikeFallback(r)
            && |r| > 1 + |suffix| && r[|r| - 1 - |suffix|..] == "-" + suffix
            && r[..|r| - 1 - |suffix|] <= base
  {
    SuffixedShape(base, suffix);
    var trimmed := TrimEnd(Take(base, MAX_LEN - 1 - |suffix|), IsHyphen);
    assert trimmed[0] == base[0];
    PartsMakeLabel(trimmed, suffix);
  }

  lemma PartsMakeLabel(head: string, suffix: string)
    requires 1 <= |head| <= MAX_LEN - 1 - |suffix| && IsSuffix(suffix)
    requires head[0] != '-' && forall i :: 0 <= i < |head| ==> IsLabelChar(head[i])
    ensures var r := head + ("-" + suffix);
            && IsLabel(r) && !LooksLikeFallback(r)
            && r[|r| - 1 - |suffix|..] == "-" + suffix && r[..|r| - 1 - |suffix|] == head
  {
    var r := head + ("-" + suffix);
    assert r[|head|] == '-';
    forall i | 0 <= i < |r|
      ensures IsLabelChar(r[i])
    {
      if i > |head| {
        assert r[i] == suffix[i - |head| - 1];
      }
    }
  }

  /** What follows the last hyphen is determined. */
  lemma AfterHyphen(x: string, a: string, y: string, b: string)
    requires x + ("-" + a) == y + ("-" + b) && '-' !in a && '-' !in b
    ensures a == b
  {
    var r := x + ("-" + a);
    assert r[|x|] == '-' && r[|x| + 1..] == a;
    assert r == y + ("-" + b);
    assert r[|y|] == '-' && r[|y| + 1..] == b;
    assert LastIndex(r, '-') == |x|;
    assert LastIndex(r, '-') == |y|;
  }

  /** Different suffixes give different names, whatever trimming did to the base. */
  lemma SuffixedDistinct(base: string, a: string, b: string)
    requires IsLabel(base) && IsSuffix(a) && IsSuffix(b)
    requires WithSuffix(base, a) == WithSuffix(base, b)
    ensures a == b
  {
    SuffixedShape(base, a);
    SuffixedShape(base, b);
    AfterHyphen(TrimEnd(Take(base, MAX_LEN - 1 - |a|), IsHyphen), a,
                TrimEnd(Take(base, MAX_LEN - 1 - |b|), IsHyphen), b);
  }

  lemma CandidatesDistinct(base: string, m: nat, n: nat)
    requires IsLabel(base) && m <= MAX_SUFFIX && n <= MAX_SUFFIX
    requires Numbered(base)(m) == Numbered(base)(n)
    ensures m == n
  {
    SuffixOfNumber(m);
    SuffixOfNumber(n);
    SuffixedDistinct(base, Decimal(m), Decimal(n));
    DecimalInjective(m, n);
  }

  lemma LastResortIsNoCandidate(base: string, claimant: Id, n: nat)
    requires IsLabel(base) && IsEndpointId(claimant) && n <= MAX_SUFFIX
    ensures LastResort(base, claimant) != Numbered(base)(n)
  {
    SuffixOfNumber(n);
    SuffixOfFallback(claimant);
    if LastResort(base, claimant) == Numbered(base)(n) {
      SuffixedDistinct(base, Fallback(claimant), Decimal(n));
    }
  }

  // What de-duplication promises

  lemma {:induction false} FirstFreeIsOneOf(candidate: nat -> string, last: string, taken: string -> bool, n: nat)
    requires n <= MAX_SUFFIX + 1
    ensures var r := FirstFree(candidate, last, taken, n);
            r == last || exists k :: n <= k <= MAX_SUFFIX && r == candidate(k)
    ensures taken(FirstFree(candidate, last, taken, n)) <==>
            taken(last) && forall k :: n <= k <= MAX_SUFFIX ==> taken(candidate(k))
    decreases MAX_SUFFIX + 1 - n
  {
    if n <= MAX_SUFFIX && taken(candidate(n)) {
      FirstFreeIsOneOf(candidate, last, taken, n + 1);
    }
  }

  /** The result is always a legal label the claimant may hold, and validation
      accepts it as it is. */
  lemma DedupeIsLegal(requested: string, claimant: Id, taken: string -> bool)
    requires LegalFor(requested, claimant) && IsEndpointId(claimant)
    ensures LegalFor(Dedupe(requested, claimant, taken), claimant)
    ensures Validate(Dedupe(requested, claimant, taken), claimant) == Ok(Dedupe(requested, claimant, taken))
  {
    var r := Dedupe(requested, claimant, taken);
    if taken(requested) {
      FirstFreeIsOneOf(Numbered(requested), LastResort(requested, claimant), taken, 1);
      if r == LastResort(requested, claimant) {
        SuffixOfFallback(claimant);
        SuffixedLabel(requested, Fallback(claimant));
      } else {
        var k: nat :| 1 <= k <= MAX_SUFFIX && r == Numbered(requested)(k);
        SuffixOfNumber(k);
        SuffixedLabel(requested, Decimal(k));
      }
    }
    ValidateLegal(r, claimant);
  }

  /** Exactly when the name handed out is one that was taken: the name asked
      for, all 9,999 numbered candidates and the untested last resort all are. */
  lemma DedupeTakenExactly(requested: string, claimant: Id, taken: string -> bool)
    ensures taken(Dedupe(requested, claimant, taken)) <==>
            && taken(requested)
            && taken(LastResort(requested, claimant))
            && forall k :: 1 <= k <= MAX_SUFFIX ==> taken(Numbered(requested)(k))
  {
    FirstFreeIsOneOf(Numbered(requested), LastResort(requested, claimant), taken, 1);
  }

  lemma {:induction false} FirstFreeIsLeast(
    candidate: nat -> string, last: string, taken: string -> bool, n: nat, k: nat)
    requires n <= k <= MAX_SUFFIX && !taken(candidate(k))
    requires forall j :: n <= j < k ==> taken(candidate(j))
    ensures FirstFree(candidate, last, taken, n) == candidate(k)
    decreases k - n
  {
    if n < k {
      FirstFreeIsLeast(candidate, last, taken, n + 1, k);
    }
  }

  /** A taken name is followed by the lowest number that is free. */
  lemma DedupePicksLeast(requested: string, claimant: Id, taken: string -> bool, k: nat)
    requires 1 <= k <= MAX_SUFFIX && taken(requested) && !taken(Numbered(requested)(k))
    requires forall j :: 1 <= j < k ==> taken(Numbered(requested)(j))
    ensures Dedupe(requested, claimant, taken) == WithSuffix(requested, Decimal(k))
  {
    FirstFreeIsLeast(Numbered(requested), LastResort(requested, claimant), taken, 1, k);
  }

  function UpTo(candidate: nat -> string, n: nat): set<string> {
    set k: nat | 1 <= k <= n :: candidate(k)
  }

  lemma {:induction false} UpToCount(candidate: nat -> string, n: nat)
    requires forall i: nat, j: nat :: 1 <= i < j <= n ==> candidate(i) != candidate(j)
    ensures |UpTo(candidate, n)| == n
  {
    if n == 0 {
      assert UpTo(candidate, n) == {};
    } else {
      UpToCount(candidate, n - 1);
      assert UpTo(candidate, n) == UpTo(candidate, n - 1) + {candidate(n)};
    }
  }

  /** Trimming never merges two candidates: there really are 9,999 of them. */
  lemma CandidatesCount(base: string)
    requires IsLabel(base)
    ensures |UpTo(Numbered(base), MAX_SUFFIX)| == MAX_SUFFIX
  {
    forall i: nat, j: nat | 1 <= i < j <= MAX_SUFFIX
      ensures Numbered(base)(i) != Numbered(base)(j)
    {
      if Numbered(base)(i) == Numbered(base)(j) {
        CandidatesDistinct(base, i, j);
      }
    }
    UpToCount(Numbered(base), MAX_SUFFIX);
  }

  /** Every name `Dedupe` tries after the one asked for; 10,000 of them. */
  function Alternatives(base: string, claimant: Id): set<string> {
    UpTo(Numbered(base), MAX_SUFFIX) + {LastResort(base, claimant)}
  }

  lemma AlternativesCount(base: string, claimant: Id)
    requires IsLabel(base) && IsEndpointId(claimant)
    ensures |Alternatives(base, claimant)| == MAX_SUFFIX + 1
  {
    CandidatesCount(base);
    if LastResort(base, claimant) in UpTo(Numbered(base), MAX_SUFFIX) {
      var k: nat :| 1 <= k <= MAX_SUFFIX && LastResort(base, claimant) == Numbered(base)(k);
      LastResortIsNoCandidate(base, claimant, k);
    }
  }

  lemma UpToTaken(candidate: nat -> string, taken: string -> bool, n: nat)
    requires forall k :: 1 <= k <= n ==> taken(candidate(k))
    ensures forall s :: s in UpTo(candidate, n) ==> taken(s)
  {
  }

  lemma AlternativesTaken(candidate: nat -> string, last: string, taken: string -> bool)
    requires taken(FirstFree(candidate, last, taken, 1))
    ensures forall s :: s in UpTo(candidate, MAX_SUFFIX) + {last} ==> taken(s)
  {
    FirstFreeIsOneOf(candidate, last, taken, 1);
    UpToTaken(candidate, taken, MAX_SUFFIX);
  }

  /** With at most 9,999 names taken, the name handed out is free. */
  lemma DedupeBound(requested: string, claimant: Id, taken: string -> bool, names: set<string>)
    requires IsLabel(requested) && IsEndpointId(claimant)
    requires forall s :: taken(s) ==> s in names
    requires |names| <= MAX_SUFFIX
    ensures !taken(Dedupe(requested, claimant, taken))
  {
    if taken(Dedupe(requested, claimant, taken)) {
      AlternativesTaken(Numbered(requested), LastResort(requested, claimant), taken);
      AlternativesCount(requested, claimant);
      SubsetSize(Alternatives(requested, claimant), names);
    }
  }

  lemma AllTaken(candidate: nat -> string, last: string, names: set<string>)
    requires names == UpTo(candidate, MAX_SUFFIX) + {last}
    ensures FirstFree(candidate, last, s => s in names, 1) in names
  {
    FirstFreeIsOneOf(candidate, last, s => s in names, 1);
  }

  /** The bound is sharp: a label of full length can be one of its own
      candidates, and then 10,000 taken names defeat it. */
  lemma DedupeBoundIsSharp(requested: string, claimant: Id)
    requires IsLabel(requested) && IsEndpointId(claimant)
    requires requested in UpTo(Numbered(requested), MAX_SUFFIX)
    ensures var names := Alternatives(requested, claimant);
            |names| == MAX_SUFFIX + 1 && Dedupe(requested, claimant, s => s in names) in names
  {
    AlternativesCount(requested, claimant);
    AllTaken(Numbered(requested), LastResort(requested, claimant), Alternatives(requested, claimant));
  }

  /** Such a label exists: 61 letters and "-7". */
  lemma SomeLabelIsItsOwnCandidate()
    ensures var base := Repeat('a', 61) + "-7";
            IsLabel(base) && base in UpTo(Numbered(base), MAX_SUFFIX)
  {
    var base := Repeat('a', 61) + "-7";
    assert base[0] == 'a' && base[62] == '7' && |base| == 63;
    assert forall i :: 0 <= i < 61 ==> base[i] == 'a';
    assert base[61] == '-';
    assert Decimal(7) == "7";
    SuffixedShape(base, "7");
    var head := Take(base, 61);
    assert head == Repeat('a', 61);
    assert TrimEnd(head, IsHyphen) == head;
    assert Numbered(base)(7) == base;
  }

  // Network names

  predicate IsAlphanumeric(c: char) {
    'a' <= c <= 'z' || 'A' <= c <= 'Z' || '0' <= c <= '9'
  }

  function Sanitised(s: string): (r: string)
    ensures |r| == |s|
    ensures forall i :: 0 <= i < |s| ==> r[i] == if IsAlphanumeric(s[i]) then s[i] else '-'
  {
    seq(|s|, i requires 0 <= i < |s| => if IsAlphanumeric(s[i]) then s[i] else '-')
  }

  /** A network name with everything a label cannot hold turned to hyphens, and
      none left at either end. */
  function Stripped(network: string): string {
    Trim(Sanitised(ToLower(Trim(network, IsSpace))), IsHyphen)
  }

  function NetworkLabel(network: string): string {
    Cut(Stripped(network))
  }

  function Cut(stripped: string): string {
    if stripped == [] then "network" else Take(stripped, MAX_LEN)
  }

  function ValidateNetwork(name: string): Result<string, NameError> {
    var trimmed := Trim(name, IsSpace);
    if trimmed == [] then Err(Empty)
    else if Utf8.Len(trimmed) > MAX_LEN then Err(TooLong)
    else if NetworkLabel(trimmed) != ToLower(trimmed) then Err(BadCharacter)
    else Ok(ToLower(trimmed))
  }

  lemma SanitisedChar(lower: string, i: nat)
    requires i < |lower| && ToLower(lower) == lower
    ensures IsLabelChar(Sanitised(lower)[i])
  {
    assert Lower(lower[i]) == ToLower(lower)[i];
  }

  lemma StrippedChars(network: string)
    ensures var s := Stripped(network);
            && (forall i :: 0 <= i < |s| ==> IsLabelChar(s[i]))
            && (s != [] ==> s[0] != '-' && s[|s| - 1] != '-')
  {
    var lower := ToLower(Trim(network, IsSpace));
    ToLowerIdempotent(Trim(network, IsSpace));
    var s := Stripped(network);
    var k := TrimIsInfix(Sanitised(lower), IsHyphen);
    forall i | 0 <= i < |s|
      ensures IsLabelChar(s[i])
    {
      SanitisedChar(lower, k + i);
    }
  }

  /** Any network name becomes a legal label, except when cutting it to 63
      characters leaves a hyphen at the end. */
  lemma NetworkLabelExactly(network: string)
    ensures IsLabel(NetworkLabel(network)) <==>
            (|Stripped(network)| > MAX_LEN ==> Stripped(network)[MAX_LEN - 1] != '-')
  {
    StrippedChars(network);
    LabelOfCut(Stripped(network));
  }

  /** It can: 62 letters and "-b" lose the "b". */
  lemma SomeLabelEndsInHyphen()
    ensures !IsLabel(NetworkLabel(Repeat('a', 62) + "-b"))
  {
    LettersAndHyphen(Repeat('a', 62) + "-b");
  }

  lemma LettersAndHyphen(name: string)
    requires name == Repeat('a', 62) + "-b"
    ensures !IsLabel(NetworkLabel(name))
  {
    assert name[0] == 'a' && name[62] == '-' && name[63] == 'b' && |name| == 64;
    assert forall i :: 0 <= i < 62 ==> name[i] == 'a';
    TrimNothing(name, IsSpace);
    LabelLower(name);
    LabelSanitised(name);
    TrimNothing(name, IsHyphen);
    assert Stripped(name) == name;
    NetworkLabelExactly(name);
  }

  lemma LabelOfCut(s: string)
    requires forall i :: 0 <= i < |s| ==> IsLabelChar(s[i])
    requires s != [] ==> s[0] != '-' && s[|s| - 1] != '-'
    ensures IsLabel(Cut(s)) <==> (|s| > MAX_LEN ==> s[MAX_LEN - 1] != '-')
  {
  }

  /** A name accepted for a new network is a legal label, and its own label. */
  lemma ValidNetworkIsItsLabel(name: string)
    ensures ValidateNetwork(name).Ok? ==>
              var zone := ValidateNetwork(name).value;
              IsLabel(zone) && NetworkLabel(zone) == zone && ValidateNetwork(zone) == Ok(zone)
  {
    if ValidateNetwork(name).Ok? {
      var trimmed := Trim(name, IsSpace);
      StrippedChars(trimmed);
      LenAtMostBytes(trimmed);
      NetworkLabelExactly(trimmed);
      LabelIsItsOwn(ToLower(trimmed));
    }
  }

  lemma LenAtMostBytes(s: string)
    requires Utf8.Len(s) <= MAX_LEN
    ensures |Stripped(s)| <= |s| <= MAX_LEN
  {
  }

  lemma LabelIsItsOwn(zone: string)
    requires IsLabel(zone)
    ensures NetworkLabel(zone) == zone && ValidateNetwork(zone) == Ok(zone)
  {
    LabelStripped(zone);
    TrimNothing(zone, IsSpace);
    LabelLower(zone);
    Utf8.AsciiLen(zone);
    assert Cut(zone) == zone;
  }

  lemma LabelStripped(zone: string)
    requires IsLabel(zone)
    ensures Stripped(zone) == zone
  {
    TrimNothing(zone, IsSpace);
    LabelLower(zone);
    LabelSanitised(zone);
    TrimNothing(zone, IsHyphen);
  }

  lemma LabelLower(zone: string)
    requires forall i :: 0 <= i < |zone| ==> IsLabelChar(zone[i])
    ensures ToLower(zone) == zone
  {
  }

  lemma LabelSanitised(zone: string)
    requires forall i :: 0 <= i < |zone| ==> IsLabelChar(zone[i])
    ensures Sanitised(zone) == zone
  {
  }
}
