/** How pending invites are written to disk and read back (the `hex_tokens`
    module of daemon/src/membership.rs). */
module HexTokens {
  import opened Basics
  import opened Membership

  // Hexadecimal

  function HexValue(c: char): (n: int)
    ensures -1 <= n < 16
  {
    if '0' <= c <= '9' then c as int - '0' as int
    else if 'a' <= c <= 'f' then c as int - 'a' as int + 10
    else if 'A' <= c <= 'F' then c as int - 'A' as int + 10
    else -1
  }

  function HexDigit(n: int): (c: char)
    requires 0 <= n < 16
    ensures HexValue(c) == n
  {
    if n < 10 then ('0' as int + n) as char else ('a' as int + n - 10) as char
  }

  function High(b: int): (n: int)
    requires 0 <= b < 256
    ensures 0 <= n < 16
  {
    b / 16
  }

  function Low(b: int): (n: int)
    requires 0 <= b < 256
    ensures 0 <= n < 16
  {
    b % 16
  }

  lemma HighLow(b: int)
    requires 0 <= b < 256
    ensures 16 * High(b) + Low(b) == b
  {
  }

  function Pair(b: int): (s: string)
    requires 0 <= b < 256
    ensures |s| == 2 && AreHex(s)
  {
    [HexDigit(High(b)), HexDigit(Low(b))]
  }

  /** The first `n` bytes in hexadecimal. */
  function Hex(bytes: seq<Byte>, n: nat): (s: string)
    requires n <= |bytes|
    ensures |s| == 2 * n
  {
    if n == 0 then "" else Hex(bytes, n - 1) + Pair(bytes[n - 1])
  }

  predicate AreHex(s: string) {
    forall j :: 0 <= j < |s| ==> HexValue(s[j]) >= 0
  }

  /** The bytes a string of hexadecimal digits spells, in either case. */
  function Unhex(s: string): (r: seq<Byte>)
    requires AreHex(s) && |s| % 2 == 0
    ensures |s| == 2 * |r|
    ensures forall i :: 0 <= i < |r| ==> r[i] == 16 * HexValue(s[2 * i]) + HexValue(s[2 * i + 1])
  {
    seq(|s| / 2, i requires 0 <= i < |s| / 2 => 16 * HexValue(s[2 * i]) + HexValue(s[2 * i + 1]))
  }

  lemma {:induction false} HexAt(bytes: seq<Byte>, n: nat, i: nat)
    requires i < n <= |bytes|
    ensures Hex(bytes, n)[2 * i..2 * i + 2] == Pair(bytes[i])
  {
    if i < n - 1 {
      HexAt(bytes, n - 1, i);
      assert Hex(bytes, n)[2 * i..2 * i + 2] == Hex(bytes, n - 1)[2 * i..2 * i + 2];
    }
  }

  lemma {:induction false} HexIsHex(bytes: seq<Byte>, n: nat)
    requires n <= |bytes|
    ensures AreHex(Hex(bytes, n))
  {
    if n > 0 {
      HexIsHex(bytes, n - 1);
      HexJoined(Hex(bytes, n - 1), Pair(bytes[n - 1]));
    }
  }

  lemma HexJoined(a: string, b: string)
    requires AreHex(a) && AreHex(b)
    ensures AreHex(a + b)
  {
  }

  lemma PairSpells(b: int)
    requires 0 <= b < 256
    ensures 16 * HexValue(Pair(b)[0]) + HexValue(Pair(b)[1]) == b
  {
    HighLow(b);
  }

  lemma UnhexAt(s: string, i: nat, b: int)
    requires AreHex(s) && |s| % 2 == 0 && 2 * i + 2 <= |s| && 0 <= b < 256
    requires s[2 * i..2 * i + 2] == Pair(b)
    ensures Unhex(s)[i] == b
  {
    PairSpells(b);
    assert Pair(b)[0] == s[2 * i] && Pair(b)[1] == s[2 * i + 1];
  }

  lemma UnhexHexAt(bytes: seq<Byte>, i: nat)
    requires i < |bytes| && AreHex(Hex(bytes, |bytes|))
    ensures i < |Unhex(Hex(bytes, |bytes|))| && Unhex(Hex(bytes, |bytes|))[i] == bytes[i]
  {
    HexAt(bytes, |bytes|, i);
    UnhexAt(Hex(bytes, |bytes|), i, bytes[i]);
  }

  lemma UnhexHex(bytes: seq<Byte>)
    ensures AreHex(Hex(bytes, |bytes|)) && Unhex(Hex(bytes, |bytes|)) == bytes
  {
    HexIsHex(bytes, |bytes|);
    forall i | 0 <= i < |bytes|
      ensures i < |Unhex(Hex(bytes, |bytes|))| && Unhex(Hex(bytes, |bytes|))[i] == bytes[i]
    {
      UnhexHexAt(bytes, i);
    }
  }

  // The order entries are written in

  /** Whether `a` sorts before `b`, given that they agree up to `i`. */
  predicate Before(a: string, b: string, i: nat)
    requires i <= |a| && i <= |b|
    decreases |a| - i
  {
    if i == |b| then false
    else if i == |a| then true
    else a[i] < b[i] || (a[i] == b[i] && Before(a, b, i + 1))
  }

  lemma {:induction false} BeforeIrreflexive(a: string, i: nat)
    requires i <= |a|
    ensures !Before(a, a, i)
    decreases |a| - i
  {
    if i < |a| {
      BeforeIrreflexive(a, i + 1);
    }
  }

  lemma {:induction false} BeforeTransitive(a: string, b: string, c: string, i: nat)
    requires i <= |a| && i <= |b| && i <= |c|
    requires Before(a, b, i) && Before(b, c, i)
    ensures Before(a, c, i)
    decreases |a| - i
  {
    if i < |a| && i < |b| && i < |c| && a[i] == b[i] == c[i] {
      BeforeTransitive(a, b, c, i + 1);
    }
  }

  lemma {:induction false} BeforeTotal(a: string, b: string, i: nat)
    requires i <= |a| && i <= |b| && a[..i] == b[..i] && a != b
    ensures Before(a, b, i) || Before(b, a, i)
    decreases |a| - i
  {
    assert a[..|a|] == a && b[..|b|] == b;
    if i < |a| && i < |b| && a[i] == b[i] {
      assert a[..i + 1] == a[..i] + [a[i]] && b[..i + 1] == b[..i] + [b[i]];
      BeforeTotal(a, b, i + 1);
    }
  }

  // Entries

  datatype Entry = Entry(token: string, invite: Invite)

  /** What a file may hold: an entry, or the bare token an older version wrote. */
  datatype Stored = Full(entry: Entry) | Legacy(bare: string)

  function Spelled(token: Token): string {
    Hex(token, |token|)
  }

  function Row(token: Token, invite: Invite): Entry {
    Entry(Spelled(token), invite)
  }

  predicate IsRow(e: Entry, invites: map<Token, Invite>, token: Token) {
    token in invites && e == Row(token, invites[token])
  }

  ghost predicate HasRow(e: Entry, invites: map<Token, Invite>) {
    exists t :: IsRow(e, invites, t)
  }

  lemma ReadSpelled(token: Token)
    ensures AreHex(Spelled(token)) && Unhex(Spelled(token)) == token
  {
    UnhexHex(token);
  }

  lemma RowsDiffer(a: Token, b: Token)
    requires Spelled(a) == Spelled(b)
    ensures a == b
  {
    ReadSpelled(a);
    ReadSpelled(b);
  }

  ghost predicate Sorted(entries: seq<Entry>) {
    forall i, j :: 0 <= i < j < |entries| ==> Before(entries[i].token, entries[j].token, 0)
  }

  /** `entries` is what saving `invites` writes. */
  ghost predicate Saves(entries: seq<Entry>, invites: map<Token, Invite>) {
    && Sorted(entries)
    && (forall t :: t in invites ==> Row(t, invites[t]) in entries)
    && (forall e :: e in entries ==> HasRow(e, invites))
  }

  lemma {:induction false} SortedOnce(a: seq<Entry>, m: nat, b: seq<Entry>, n: nat)
    requires m <= |a| && n <= |b| && Sorted(a) && Sorted(b)
    requires forall e :: e in a[..m] <==> e in b[..n]
    ensures m == n && a[..m] == b[..n]
  {
    if m == 0 {
      EmptyOrNot(b[..n]);
    } else {
      LastIsLast(a, m, b, n);
      assert a[..m] == a[..m - 1] + [a[m - 1]] && b[..n] == b[..n - 1] + [b[n - 1]];
      NotAmongFirst(a, m - 1);
      NotAmongFirst(b, n - 1);
      DropSame(a[..m - 1], b[..n - 1], a[m - 1]);
      SortedOnce(a, m - 1, b, n - 1);
    }
  }

  lemma EmptyOrNot(x: seq<Entry>)
    ensures x == [] || exists e :: e in x
  {
    if x != [] {
      assert x[0] in x;
    }
  }

  lemma DropSame(x: seq<Entry>, y: seq<Entry>, last: Entry)
    requires forall e :: e in x + [last] <==> e in y + [last]
    requires last !in x && last !in y
    ensures forall e :: e in x <==> e in y
  {
    forall e
      ensures e in x <==> e in y
    {
      assert e in x + [last] <==> e in x || e == last;
      assert e in y + [last] <==> e in y || e == last;
    }
  }

  lemma NotAmongFirst(a: seq<Entry>, k: nat)
    requires k < |a| && Sorted(a)
    ensures a[k] !in a[..k]
  {
    BeforeIrreflexive(a[k].token, 0);
  }

  lemma LastIsLast(a: seq<Entry>, m: nat, b: seq<Entry>, n: nat)
    requires 0 < m <= |a| && n <= |b| && Sorted(a) && Sorted(b)
    requires forall e :: e in a[..m] <==> e in b[..n]
    ensures n > 0 && a[m - 1] == b[n - 1]
  {
    assert a[m - 1] in a[..m];
    var i :| 0 <= i < n && b[i] == a[m - 1];
    assert b[n - 1] in b[..n];
    var j :| 0 <= j < m && a[j] == b[n - 1];
    if i < n - 1 {
      assert Before(b[i].token, b[n - 1].token, 0);
      if j < m - 1 {
        assert Before(a[j].token, a[m - 1].token, 0);
        BeforeTransitive(b[i].token, b[n - 1].token, b[i].token, 0);
      }
      BeforeIrreflexive(b[i].token, 0);
    }
  }

  /** Saving twice writes the same file, whatever order the table is read in. */
  lemma SavedOnce(a: seq<Entry>, b: seq<Entry>, invites: map<Token, Invite>)
    requires Saves(a, invites) && Saves(b, invites)
    ensures a == b
  {
    assert a[..|a|] == a && b[..|b|] == b;
    SortedOnce(a, |a|, b, |b|);
  }

  /** The first entry from `i` on that does not sort before this token. */
  function Place(entries: seq<Entry>, token: string, i: nat): (k: nat)
    requires i <= |entries|
    ensures i <= k <= |entries| && (k < |entries| ==> !Before(entries[k].token, token, 0))
    ensures forall j :: i <= j < k ==> Before(entries[j].token, token, 0)
    decreases |entries| - i
  {
    if i < |entries| && Before(entries[i].token, token, 0) then Place(entries, token, i + 1) else i
  }

  function Inserted(entries: seq<Entry>, e: Entry): (r: seq<Entry>)
    ensures forall x :: x in r <==> x == e || x in entries
  {
    var k := Place(entries, e.token, 0);
    entries[..k] + [e] + entries[k..]
  }

  lemma AfterPlace(entries: seq<Entry>, e: Entry, j: nat)
    requires Sorted(entries) && Place(entries, e.token, 0) <= j < |entries|
    requires entries[j].token != e.token && entries[Place(entries, e.token, 0)].token != e.token
    ensures Before(e.token, entries[j].token, 0)
  {
    var k := Place(entries, e.token, 0);
    BeforeTotal(e.token, entries[k].token, 0);
    if k < j {
      BeforeTransitive(e.token, entries[k].token, entries[j].token, 0);
    }
  }

  lemma InsertedSorted(entries: seq<Entry>, e: Entry)
    requires Sorted(entries) && forall i :: 0 <= i < |entries| ==> entries[i].token != e.token
    ensures Sorted(Inserted(entries, e))
  {
    var k := Place(entries, e.token, 0);
    forall j: nat | k <= j < |entries|
      ensures Before(e.token, entries[j].token, 0)
    {
      AfterPlace(entries, e, j);
    }
  }

  ghost predicate AllRows(entries: seq<Entry>, invites: map<Token, Invite>, rest: set<Token>) {
    && (forall t :: t in invites && t !in rest ==> Row(t, invites[t]) in entries)
    && (forall e :: e in entries ==> exists t :: t !in rest && IsRow(e, invites, t))
  }

  lemma InsertedRow(entries: seq<Entry>, invites: map<Token, Invite>, rest: set<Token>, token: Token)
    requires Sorted(entries) && AllRows(entries, invites, rest) && token in rest && token in invites
    ensures Sorted(Inserted(entries, Row(token, invites[token])))
    ensures AllRows(Inserted(entries, Row(token, invites[token])), invites, rest - {token})
  {
    var e := Row(token, invites[token]);
    forall i | 0 <= i < |entries|
      ensures entries[i].token != e.token
    {
      assert entries[i] in entries;
      var t :| t !in rest && IsRow(entries[i], invites, t);
      if entries[i].token == e.token {
        RowsDiffer(t, token);
      }
    }
    InsertedSorted(entries, e);
  }

  method Serialize(invites: map<Token, Invite>) returns (entries: seq<Entry>)
    ensures Saves(entries, invites)
  {
    entries := [];
    var rest := invites.Keys;
    while rest != {}
      invariant rest <= invites.Keys && Sorted(entries) && AllRows(entries, invites, rest)
      decreases |rest|
    {
      var token :| token in rest;
      InsertedRow(entries, invites, rest, token);
      entries := Inserted(entries, Row(token, invites[token]));
      rest := rest - {token};
    }
  }

  // Reading

  datatype LoadError = BadHex | BadLength

  function ReadToken(text: string): Result<Token, LoadError> {
    if |text| % 2 != 0 || !AreHex(text) then Err(BadHex)
    else if |text| != 32 then Err(BadLength)
    else Ok(Unhex(text))
  }

  /** The invites in the first `n` things stored, bare tokens dropped. */
  function Load(stored: seq<Stored>, n: nat): Result<map<Token, Invite>, LoadError>
    requires n <= |stored|
  {
    if n == 0 then Ok(map[])
    else
      var before := Load(stored, n - 1);
      if before.Err? || stored[n - 1].Legacy? then before
      else
        var token := ReadToken(stored[n - 1].entry.token);
        if token.Err? then Err(token.error) else Ok(before.value[token.value := stored[n - 1].entry.invite])
  }

  method Deserialize(stored: seq<Stored>) returns (r: Result<map<Token, Invite>, LoadError>)
    ensures r == Load(stored, |stored|)
  {
    var out: map<Token, Invite> := map[];
    for i := 0 to |stored|
      invariant Load(stored, i) == Ok(out)
    {
      if stored[i].Full? {
        var token := ReadToken(stored[i].entry.token);
        if token.Err? {
          FailureStays(stored, i + 1, |stored|);
          return Err(token.error);
        }
        out := out[token.value := stored[i].entry.invite];
      }
    }
    r := Ok(out);
  }

  lemma {:induction false} FailureStays(stored: seq<Stored>, k: nat, n: nat)
    requires k <= n <= |stored| && Load(stored, k).Err?
    ensures Load(stored, n) == Load(stored, k)
  {
    if k < n {
      FailureStays(stored, k, n - 1);
    }
  }

  lemma ReadRow(token: Token)
    ensures ReadToken(Spelled(token)) == Ok(token)
  {
    ReadSpelled(token);
  }

  /** The entries of a file among whatever older versions left in it. */
  function EntriesOf(stored: seq<Stored>, n: nat): seq<Entry>
    requires n <= |stored|
  {
    if n == 0 then []
    else EntriesOf(stored, n - 1) + if stored[n - 1].Full? then [stored[n - 1].entry] else []
  }

  lemma OneMoreRow(entries: seq<Entry>, e: Entry, t: Token, out: map<Token, Invite>, invites: map<Token, Invite>)
    requires IsRow(e, invites, t)
    requires forall u :: u in out ==> u in invites && out[u] == invites[u]
    requires forall u :: u in invites && Row(u, invites[u]) in entries ==> u in out
    ensures var more := out[t := e.invite];
            && (forall u :: u in more ==> u in invites && more[u] == invites[u])
            && (forall u :: u in invites && Row(u, invites[u]) in entries + [e] ==> u in more)
  {
    forall u | u in invites && Row(u, invites[u]) in entries + [e]
      ensures u in out || u == t
    {
      if Row(u, invites[u]) == e {
        RowsDiffer(u, t);
      }
    }
  }

  lemma {:induction false} LoadRows(stored: seq<Stored>, invites: map<Token, Invite>, n: nat)
    requires n <= |stored|
    requires forall e :: e in EntriesOf(stored, n) ==> HasRow(e, invites)
    ensures Load(stored, n).Ok?
    ensures var out := Load(stored, n).value;
            && (forall t :: t in out ==> t in invites && out[t] == invites[t])
            && (forall t :: t in invites && Row(t, invites[t]) in EntriesOf(stored, n) ==> t in out)
  {
    if n > 0 {
      forall e | e in EntriesOf(stored, n - 1)
        ensures HasRow(e, invites)
      {
        assert e in EntriesOf(stored, n);
      }
      LoadRows(stored, invites, n - 1);
      if stored[n - 1].Full? {
        var e := stored[n - 1].entry;
        assert e in EntriesOf(stored, n);
        var t :| IsRow(e, invites, t);
        ReadRow(t);
        OneMoreRow(EntriesOf(stored, n - 1), e, t, Load(stored, n - 1).value, invites);
      }
    }
  }

  lemma SameTable(out: map<Token, Invite>, invites: map<Token, Invite>)
    requires forall t :: t in out ==> t in invites && out[t] == invites[t]
    requires forall t :: t in invites ==> t in out
    ensures out == invites
  {
  }

  /** What was saved is what is read back, and bare tokens an older version left
      beside it bring no invite back to life. */
  lemma SaveThenLoad(stored: seq<Stored>, invites: map<Token, Invite>)
    requires Saves(EntriesOf(stored, |stored|), invites)
    ensures Load(stored, |stored|) == Ok(invites)
  {
    LoadRows(stored, invites, |stored|);
    SameTable(Load(stored, |stored|).value, invites);
  }
}
