/** Whether a peer's file name is safe to create, and what to call a file whose
    name is taken (proto/src/filename.rs). Names are UTF-8, measured in bytes. */
module FileName {
  import opened Basics
  import opened Text
  import Utf8

  const MAX_LEN := 255

  datatype Platform = Unix | Windows

  datatype NameError =
    | Empty
    | NotAFile
    | Separator
    | TooLong
    | ControlCharacter
    | WindowsCharacter
    | TrailingDotOrSpace
    | DeviceName

  const RESERVED: seq<string> := [
    "CON", "PRN", "AUX", "NUL", "CONIN$", "CONOUT$",
    "COM1", "COM2", "COM3", "COM4", "COM5", "COM6", "COM7", "COM8", "COM9", "COM\U{B9}", "COM\U{B2}", "COM\U{B3}",
    "LPT1", "LPT2", "LPT3", "LPT4", "LPT5", "LPT6", "LPT7", "LPT8", "LPT9", "LPT\U{B9}", "LPT\U{B2}", "LPT\U{B3}"]

  predicate IsSeparator(c: char) {
    c == '/' || c == '\\'
  }

  predicate IsControl(c: char) {
    var u := c as int;
    || u < 0x20 || 0x7F <= u < 0xA0
    || u == 0x200E || u == 0x200F || 0x202A <= u <= 0x202E || 0x2066 <= u <= 0x2069
  }

  predicate IsWindowsInvalid(c: char) {
    c == '<' || c == '>' || c == ':' || c == '"' || c == '|' || c == '?' || c == '*'
  }

  predicate Any(name: string, bad: char -> bool) {
    exists i :: 0 <= i < |name| && bad(name[i])
  }

  /** What Windows matches against its device names. */
  function DeviceStem(name: string): string {
    TrimEnd(name[..FirstDot(name, 0)], c => c == ' ')
  }

  predicate IsDevice(name: string) {
    exists i :: 0 <= i < |RESERVED| && ToLower(RESERVED[i]) == ToLower(DeviceStem(name))
  }

  function Check(name: string, platform: Platform): Result<(), NameError> {
    if name == [] then Err(Empty)
    else if name == "." || name == ".." then Err(NotAFile)
    else if Any(name, IsSeparator) then Err(Separator)
    else if Utf8.Len(name) > MAX_LEN then Err(TooLong)
    else if Any(name, IsControl) then Err(ControlCharacter)
    else if platform.Unix? then Ok(())
    else if Any(name, IsWindowsInvalid) then Err(WindowsCharacter)
    else if name[|name| - 1] == '.' || name[|name| - 1] == ' ' then Err(TrailingDotOrSpace)
    else if IsDevice(name) then Err(DeviceName)
    else Ok(())
  }

  // Where a name leads

  /** From a directory to what a component of a path means there. */
  function Enter(at: seq<string>, component: string): seq<string> {
    if component == "" || component == "." then at
    else if component == ".." then if at == [] then [] else at[..|at| - 1]
    else at + [component]
  }

  /** Where a path leads, one component after the other. */
  function Walk(path: string, separates: char -> bool): seq<string>
    decreases |path|
  {
    var cut := LastWhere(path, separates, |path|);
    Enter(if cut < 0 then [] else Walk(path[..cut], separates), path[cut + 1..])
  }

  /** An accepted name stays where it is put: joined to any directory, whichever of the
      two separators the system splits paths at, it leads to an entry of that directory
      under exactly this name. */
  lemma AcceptedNameStaysPut(
    dir: string, name: string, platform: Platform, separator: char, separates: char -> bool)
    requires separates(separator) && forall c :: separates(c) ==> IsSeparator(c)
    ensures Check(name, platform).Ok? ==>
              Walk(dir + [separator] + name, separates) == Walk(dir, separates) + [name]
  {
    if Check(name, platform).Ok? {
      var path := dir + [separator] + name;
      assert path[|dir|] == separator;
      assert !Any(name, IsSeparator);
      forall j | |dir| < j < |path|
        ensures !separates(path[j])
      {
        assert path[j] == name[j - |dir| - 1];
      }
      assert LastWhere(path, separates, |path|) == |dir|;
      assert path[..|dir|] == dir && path[|dir| + 1..] == name;
    }
  }

  // Numbered names

  function Tag(n: nat): (t: string)
    ensures |t| >= 4
  {
    " (" + Decimal(n) + ")"
  }

  /** Where the extension starts: at the last dot, unless that is the first
      character or there is none. */
  function Dot(name: string): (k: nat)
    ensures k <= |name| && (k < |name| ==> name[k] == '.' && k > 0)
  {
    var dot := LastIndex(name, '.');
    if dot > 0 then dot else |name|
  }

  function Stem(name: string): string {
    name[..Dot(name)]
  }

  function Extension(name: string): string {
    name[Dot(name)..]
  }

  /** How many bytes are left for the stem. */
  function Room(name: string, n: nat): nat {
    var taken := Utf8.Len(Tag(n)) + Utf8.Len(Extension(name));
    if taken > MAX_LEN then 0 else MAX_LEN - taken
  }

  /** The `n`th alternative to a name: as much of the stem as fits in whole
      characters, the number, and the extension untouched. */
  function Numbered(name: string, n: nat): string {
    Utf8.Fit(Stem(name), Room(name, n)) + (Tag(n) + Extension(name))
  }

  /** The last boundary within the room is where `Fit` stops. */
  lemma CutIsFit(s: string, room: nat, cut: nat)
    requires cut <= room && cut <= Utf8.Len(s) && Utf8.IsBoundary(Utf8.Encode(s), cut)
    requires forall i :: cut < i <= room && i <= Utf8.Len(s) ==> !Utf8.IsBoundary(Utf8.Encode(s), i)
    ensures cut <= |Utf8.Encode(s)| && Utf8.Encode(s)[..cut] == Utf8.Encode(Utf8.Fit(s, room))
  {
    Utf8.FitEndsAtBoundary(s, room);
    if Utf8.Len(Utf8.Fit(s, room)) < cut {
      Utf8.NoBoundaryAfterFit(s, room, cut);
    }
  }

  lemma EncodeParts(a: string, b: string, c: string)
    ensures Utf8.Encode(a + (b + c)) == Utf8.Encode(a) + Utf8.Encode(b) + Utf8.Encode(c)
  {
    Utf8.EncodeConcat(a, b + c);
    Utf8.EncodeConcat(b, c);
    Regroup(Utf8.Encode(a), Utf8.Encode(b), Utf8.Encode(c));
  }

  /** The alternative as the program builds it, on the bytes of the name:
      walking back from the room there is to a character boundary. */
  method NumberedBytes(name: string, n: nat) returns (bytes: seq<Byte>)
    ensures bytes == Utf8.Encode(Numbered(name, n))
  {
    var stem, ext := Utf8.Encode(Stem(name)), Utf8.Encode(Extension(name));
    var tag := Utf8.Encode(Tag(n));
    var room := if |tag| + |ext| > MAX_LEN then 0 else MAX_LEN - (|tag| + |ext|);
    var cut: nat := if |stem| < room then |stem| else room;
    while !Utf8.IsBoundary(stem, cut)
      invariant cut <= room && cut <= |stem|
      invariant forall i: nat :: cut < i <= room && i <= |stem| ==> !Utf8.IsBoundary(stem, i)
      decreases cut
    {
      cut := cut - 1;
    }
    CutIsFit(Stem(name), room, cut);
    EncodeParts(Utf8.Fit(Stem(name), room), Tag(n), Extension(name));
    bytes := stem[..cut] + tag + ext;
  }

  lemma TagLen(n: nat)
    ensures Utf8.Len(Tag(n)) == |Tag(n)| == |Decimal(n)| + 3
    ensures forall i :: 0 <= i < |Tag(n)| ==>
              Tag(n)[i] == ' ' || Tag(n)[i] == '(' || Tag(n)[i] == ')' || IsDigit(Tag(n)[i])
  {
    Utf8.AsciiLen(Tag(n));
  }

  lemma NumberedLen(name: string, n: nat)
    ensures Utf8.Len(Numbered(name, n))
         == Utf8.Len(Utf8.Fit(Stem(name), Room(name, n))) + Utf8.Len(Tag(n)) + Utf8.Len(Extension(name))
  {
    Utf8.EncodeConcat(Utf8.Fit(Stem(name), Room(name, n)), Tag(n) + Extension(name));
    Utf8.EncodeConcat(Tag(n), Extension(name));
  }

  /** Text with no dot in `middle` has the extension that `ext` spells. */
  lemma ExtensionOf(front: string, middle: string, ext: string)
    requires middle != [] && '.' !in middle
    requires ext == [] ==> forall j :: 0 < j < |front| ==> front[j] != '.'
    requires ext != [] ==> ext[0] == '.' && forall j :: 0 < j < |ext| ==> ext[j] != '.'
    ensures Extension(front + middle + ext) == ext
  {
    var r, dot := front + middle + ext, |front| + |middle|;
    assert forall j :: |front| <= j < dot ==> r[j] == middle[j - |front|];
    if ext != [] {
      assert r[dot..] == ext && r[dot] == '.';
      forall j | dot < j < |r|
        ensures r[j] != '.'
      {
        assert r[j] == ext[j - dot];
      }
    } else {
      assert forall j :: 0 <= j < |front| ==> r[j] == front[j];
    }
  }

  /** A numbered name has the extension of the name it stands in for. */
  lemma NumberedKeepsExtension(name: string, n: nat)
    ensures Extension(Numbered(name, n)) == Extension(name)
  {
    NumberedShape(name, n);
    TagLen(n);
    ExtensionOf(Utf8.Fit(Stem(name), Room(name, n)), Tag(n), Extension(name));
  }

  /** The limit is kept exactly when the number and the extension alone keep it;
      the stem is never what goes over. */
  lemma NumberedFitsExactly(name: string, n: nat)
    ensures Utf8.Len(Numbered(name, n)) <= MAX_LEN
       <==> Utf8.Len(Tag(n)) + Utf8.Len(Extension(name)) <= MAX_LEN
  {
    NumberedLen(name, n);
  }

  lemma AllExtension(k: nat)
    ensures var name := "a" + ("." + Repeat('b', k));
            && Extension(name) == "." + Repeat('b', k) && Utf8.Len(name) == k + 2
            && Utf8.Len(Extension(name)) == k + 1 && PlainName(name)
  {
    var ext := "." + Repeat('b', k);
    var name := "a" + ext;
    assert forall i :: 1 <= i < |ext| ==> ext[i] == 'b';
    assert name[0] == 'a' && name[1] == '.' && forall i :: 2 <= i < |name| ==> name[i] == 'b';
    assert LastIndex(name, '.') == 1;
    assert name[1..] == ext;
    Utf8.AsciiLen(name);
    Utf8.AsciiLen(ext);
  }

  /** It can go over: a name of 255 bytes that is nearly all extension. */
  lemma NumberedCanOvershoot()
    ensures var name := "a" + ("." + Repeat('b', 253));
            Check(name, Unix).Ok? && Utf8.Len(Numbered(name, 1)) > MAX_LEN
  {
    var name := "a" + ("." + Repeat('b', 253));
    AllExtension(253);
    CheckExactly(name, Unix);
    TagLen(1);
    NumberedFitsExactly(name, 1);
  }

  /** The head of the name, the number, and the whole extension. */
  lemma NumberedShape(name: string, n: nat)
    ensures var r, head := Numbered(name, n), Utf8.Fit(Stem(name), Room(name, n));
            && head <= Stem(name) && r == head + Tag(n) + Extension(name)
            && r[|r| - |Extension(name)|..] == Extension(name)
  {
    var head := Utf8.Fit(Stem(name), Room(name, n));
    Regroup(head, Tag(n), Extension(name));
    var r := Numbered(name, n);
    assert r == head + Tag(n) + Extension(name);
  }

  lemma AnyConcat(a: string, b: string, bad: char -> bool)
    requires !Any(a, bad) && !Any(b, bad)
    ensures !Any(a + b, bad)
  {
  }

  lemma AnySlice(s: string, i: nat, j: nat, bad: char -> bool)
    requires i <= j <= |s| && !Any(s, bad)
    ensures !Any(s[i..j], bad)
  {
    forall k | 0 <= k < j - i
      ensures !bad(s[i..j][k])
    {
      assert s[i..j][k] == s[i + k];
    }
  }

  /** Nothing is in a numbered name that was not in the name or the number. */
  lemma NumberedChars(name: string, n: nat, bad: char -> bool)
    requires !Any(name, bad)
    requires forall c :: c == ' ' || c == '(' || c == ')' || IsDigit(c) ==> !bad(c)
    ensures !Any(Numbered(name, n), bad)
  {
    var head := Utf8.Fit(Stem(name), Room(name, n));
    TagLen(n);
    assert head == name[0..|head|];
    AnySlice(name, 0, |head|, bad);
    AnySlice(name, Dot(name), |name|, bad);
    assert !Any(Tag(n), bad);
    AnyConcat(Tag(n), Extension(name), bad);
    AnyConcat(head, Tag(n) + Extension(name), bad);
  }

  lemma FirstDotOfPrefix(p: string, s: string)
    requires p <= s && FirstDot(p, 0) < |p|
    ensures FirstDot(s, 0) == FirstDot(p, 0) && DeviceStem(s) == DeviceStem(p)
  {
    var k := FirstDot(p, 0);
    assert s[k] == p[k];
    assert FirstDot(s, 0) <= k;
    assert p[FirstDot(s, 0)] == s[FirstDot(s, 0)];
    assert s[..k] == p[..k];
  }

  /** Without a dot kept of the stem, the device stem ends in the number. */
  lemma DeviceStemNumbered(head: string, n: nat, ext: string)
    requires FirstDot(head, 0) == |head| && (ext == [] || ext[0] == '.')
    ensures var stem := DeviceStem(head + Tag(n) + ext); stem != [] && stem[|stem| - 1] == ')'
  {
    TagLen(n);
    var front := head + Tag(n);
    var r := front + ext;
    forall j | 0 <= j < |front|
      ensures r[j] != '.'
    {
      assert r[j] == front[j] == if j < |head| then head[j] else Tag(n)[j - |head|];
    }
    FirstDotAt(r, |front|);
    assert r[..|front|] == front;
    assert Tag(n)[|Tag(n)| - 1] == ')';
    assert front[|front| - 1] == ')';
  }

  /** A numbered name is never a Windows device: its stem either is the stem of
      the name it came from, or ends in the number. */
  lemma NumberedNoDevice(name: string, n: nat)
    requires !IsDevice(name)
    ensures !IsDevice(Numbered(name, n))
  {
    var head := Utf8.Fit(Stem(name), Room(name, n));
    NumberedShape(name, n);
    if FirstDot(head, 0) < |head| {
      FirstDotOfPrefix(head, name);
      FirstDotOfPrefix(head, Numbered(name, n));
    } else {
      DeviceStemNumbered(head, n, Extension(name));
      NoDeviceEndsInParenthesis(DeviceStem(Numbered(name, n)));
    }
  }

  lemma NoDeviceEndsInParenthesis(stem: string)
    requires stem != [] && stem[|stem| - 1] == ')'
    ensures forall i :: 0 <= i < |RESERVED| ==> ToLower(RESERVED[i]) != ToLower(stem)
  {
    forall i | 0 <= i < |RESERVED|
      ensures ToLower(RESERVED[i]) != ToLower(stem)
    {
      var device := RESERVED[i];
      assert device[|device| - 1] != ')';
      LastLower(device);
      LastLower(stem);
    }
  }

  lemma LastLower(s: string)
    requires s != []
    ensures ToLower(s)[|s| - 1] == ')' <==> s[|s| - 1] == ')'
  {
    assert ToLower(s)[|s| - 1] == Lower(s[|s| - 1]);
  }

  predicate PlainName(name: string) {
    && name != [] && name != "." && name != ".."
    && !Any(name, IsSeparator) && !Any(name, IsControl)
  }

  predicate WindowsName(name: string)
    requires name != []
  {
    && !Any(name, IsWindowsInvalid)
    && name[|name| - 1] != '.' && name[|name| - 1] != ' '
    && !IsDevice(name)
  }

  /** What `Check` accepts, in one line. */
  lemma CheckExactly(name: string, platform: Platform)
    ensures Check(name, platform).Ok? <==>
            PlainName(name) && Utf8.Len(name) <= MAX_LEN && (platform.Windows? ==> WindowsName(name))
  {
  }

  lemma NumberedPlain(name: string, n: nat)
    requires PlainName(name)
    ensures PlainName(Numbered(name, n))
  {
    NumberedShape(name, n);
    assert |Numbered(name, n)| >= 4;
    NumberedChars(name, n, IsSeparator);
    NumberedChars(name, n, IsControl);
  }

  lemma NumberedWindows(name: string, n: nat)
    requires name != [] && WindowsName(name)
    ensures Numbered(name, n) != [] && WindowsName(Numbered(name, n))
  {
    NumberedChars(name, n, IsWindowsInvalid);
    NumberedLast(name, n);
    NumberedNoDevice(name, n);
  }

  /** A numbered alternative to an acceptable name is acceptable on the same
      platform, exactly when the number and the extension fit. */
  lemma NumberedIsAcceptable(name: string, n: nat, platform: Platform)
    requires Check(name, platform).Ok?
    ensures Check(Numbered(name, n), platform).Ok? <==>
            Utf8.Len(Tag(n)) + Utf8.Len(Extension(name)) <= MAX_LEN
  {
    CheckExactly(name, platform);
    CheckExactly(Numbered(name, n), platform);
    NumberedPlain(name, n);
    NumberedFitsExactly(name, n);
    if platform.Windows? {
      NumberedWindows(name, n);
    }
  }

  lemma NumberedLast(name: string, n: nat)
    requires name != []
    ensures var r := Numbered(name, n);
            r != [] && r[|r| - 1] == if Extension(name) == [] then ')' else name[|name| - 1]
  {
    NumberedShape(name, n);
    var r := Numbered(name, n);
    if Extension(name) == [] {
      assert r == Utf8.Fit(Stem(name), Room(name, n)) + Tag(n);
    } else {
      assert r[|r| - 1] == Extension(name)[|Extension(name)| - 1];
    }
  }

  /** Different numbers give different names. */
  lemma NumberedInjective(name: string, m: nat, n: nat)
    requires Numbered(name, m) == Numbered(name, n)
    ensures m == n
  {
    var a, b := Utf8.Fit(Stem(name), Room(name, m)), Utf8.Fit(Stem(name), Room(name, n));
    NumberedShape(name, m);
    NumberedShape(name, n);
    var r, ext := Numbered(name, m), Extension(name);
    var front := r[..|r| - |ext|];
    assert front == a + Tag(m) && front == b + Tag(n);
    TagDetermined(a, m, b, n);
  }

  lemma TagDetermined(a: string, m: nat, b: string, n: nat)
    requires a + Tag(m) == b + Tag(n)
    ensures m == n
  {
    LastParenthesis(a, m);
    LastParenthesis(b, n);
    var r := a + Tag(m);
    assert r[|a| + 2..|r| - 1] == Decimal(m);
    assert r[|b| + 2..|r| - 1] == Decimal(n);
    DecimalInjective(m, n);
  }

  lemma LastParenthesis(a: string, n: nat)
    ensures LastIndex(a + Tag(n), '(') == |a| + 1
  {
    var r := a + Tag(n);
    assert r[|a| + 1] == '(';
    forall j | |a| + 1 < j < |r|
      ensures r[j] != '('
    {
      assert r[j] == Tag(n)[j - |a|];
      if j < |r| - 1 {
        assert Tag(n)[j - |a|] == Decimal(n)[j - |a| - 2];
      }
    }
  }

  predicate EndsIn(s: string, tag: string) {
    |s| >= |tag| && s[|s| - |tag|..] == tag
  }

  function RoomFor(tag: string, ext: string): nat {
    var taken := Utf8.Len(tag) + Utf8.Len(ext);
    if taken > MAX_LEN then 0 else MAX_LEN - taken
  }

  lemma SelfOnlyAtLimit(head: string, tag: string, ext: string)
    requires tag != [] && tag[0] as int < 0x80
    requires head == Utf8.Fit(head + tag, RoomFor(tag, ext))
    requires Utf8.Len(head + tag) + Utf8.Len(ext) <= MAX_LEN
    ensures Utf8.Len(head + tag) + Utf8.Len(ext) == MAX_LEN
  {
    Utf8.EncodeConcat(head, tag);
    if RoomFor(tag, ext) > Utf8.Len(head) {
      FitMore(head, tag, RoomFor(tag, ext));
    }
  }

  lemma SelfAtLimit(kept: string, tag: string, ext: string)
    requires tag != []
    requires Utf8.Len(kept + tag) + Utf8.Len(ext) == MAX_LEN
    ensures Utf8.Fit(kept + tag, RoomFor(tag, ext)) == kept
  {
    Utf8.EncodeConcat(kept, tag);
    FitWhole(kept, tag);
  }

  /** A numbered name can still be the name itself: exactly when the name is at
      the limit already and its stem ends in that very number. */
  lemma NumberedIsItselfExactly(name: string, n: nat)
    requires Utf8.Len(name) <= MAX_LEN
    ensures Numbered(name, n) == name <==> Utf8.Len(name) == MAX_LEN && EndsIn(Stem(name), Tag(n))
  {
    var stem, ext, tag := Stem(name), Extension(name), Tag(n);
    var head := Utf8.Fit(stem, Room(name, n));
    assert name == stem + ext;
    Utf8.EncodeConcat(stem, ext);
    Regroup(head, tag, ext);
    SameFront(head + tag, stem, ext);
    if head + tag == stem {
      assert stem[|stem| - |tag|..] == tag;
      SelfOnlyAtLimit(head, tag, ext);
    } else if Utf8.Len(name) == MAX_LEN && EndsIn(stem, tag) {
      var kept := stem[..|stem| - |tag|];
      assert stem == kept + tag;
      SelfAtLimit(kept, tag, ext);
    }
  }

  /** Such a name: 251 letters and " (1)". */
  lemma SomeNameIsItsOwnNumbered()
    ensures var name := Repeat('a', 251) + " (1)";
            Check(name, Unix).Ok? && Numbered(name, 1) == name
  {
    OwnNumbered(Repeat('a', 251) + " (1)");
  }

  lemma OwnNumbered(name: string)
    requires name == Repeat('a', 251) + " (1)"
    ensures Check(name, Unix).Ok? && Numbered(name, 1) == name
  {
    assert forall i :: 0 <= i < 251 ==> name[i] == 'a';
    assert name[251] == ' ' && name[252] == '(' && name[253] == '1' && name[254] == ')' && |name| == 255;
    Utf8.AsciiLen(name);
    assert Decimal(1) == "1";
    assert Tag(1) == " (1)";
    assert LastIndex(name, '.') == -1;
    assert Stem(name) == name;
    assert name[251..] == " (1)";
    NumberedIsItselfExactly(name, 1);
  }

  lemma SameFront(a: string, b: string, ext: string)
    ensures a + ext == b + ext <==> a == b
  {
    if a + ext == b + ext {
      assert (a + ext)[..|a|] == a && (b + ext)[..|b|] == b;
    }
  }

  lemma FitWhole(kept: string, tag: string)
    requires tag != []
    ensures Utf8.Fit(kept + tag, Utf8.Len(kept)) == kept
  {
    var s := kept + tag;
    Utf8.EncodeToConcat(kept, tag, 0);
    Utf8.EncodeToConcat(kept, tag, 1);
    Utf8.FitExactly(s, Utf8.Len(kept), |kept|);
    Utf8.FitExactly(s, Utf8.Len(kept), |kept| + 1);
    assert s[..|kept|] == kept;
  }

  lemma FitMore(kept: string, tag: string, room: nat)
    requires tag != [] && tag[0] as int < 0x80 && room > Utf8.Len(kept)
    ensures Utf8.Fit(kept + tag, room) != kept
  {
    Utf8.EncodeToConcat(kept, tag, 1);
    assert Utf8.LenTo(tag, 1) == Utf8.LenTo(tag, 0) + Utf8.Width(tag[0]);
    Utf8.FitExactly(kept + tag, room, |kept| + 1);
  }
}
