/** The resolver's view of a roster (daemon/src/dns.rs): which label a query asks
    about, and which member answers to it. */
module Dns {
  import opened Basics
  import opened Text
  import opened Names
  import opened Membership

  const ZONE := "quix"

  predicate IsDot(c: char) {
    c == '.'
  }

  /** The part of a queried name in front of the zone, if it is in the zone. */
  function InnerOf(qname: string): Option<string> {
    var name := ToLower(TrimEnd(qname, IsDot));
    if |name| >= 5 && name[|name| - 5..] == "." + ZONE then Some(name[..|name| - 5]) else None
  }

  /** The host a name in the zone asks this node about: a bare label, or one
      under this node's own network and nothing deeper. */
  function HostOf(inner: string, network: Option<string>): Option<string> {
    var k := FirstDot(inner, 0);
    if k < |inner| then
      if k > 0 && network == Some(inner[k + 1..]) then Some(inner[..k]) else None
    else if inner != [] then Some(inner)
    else None
  }

  function HostInZone(qname: string, network: Option<string>): Option<string> {
    var inner := InnerOf(qname);
    if inner.Some? then HostOf(inner.value, network) else None
  }

  lemma FlatHost(host: string, network: Option<string>)
    requires host != [] && '.' !in host
    ensures HostOf(host, network) == Some(host)
  {
    FirstDotAt(host, |host|);
  }

  lemma QualifiedHost(host: string, network: string)
    requires host != [] && '.' !in host
    ensures HostOf(host + ("." + network), Some(network)) == Some(host)
  {
    var inner := host + ("." + network);
    assert inner[|host|] == '.';
    FirstDotAt(inner, |host|);
    assert inner[|host| + 1..] == network && inner[..|host|] == host;
  }

  lemma HostShape(inner: string, network: Option<string>)
    requires HostOf(inner, network).Some?
    ensures var host := HostOf(inner, network).value;
            && host != [] && '.' !in host
            && (inner == host || (network.Some? && inner == host + ("." + network.value)))
  {
    var k := FirstDot(inner, 0);
    if k < |inner| {
      assert inner == inner[..k] + ("." + inner[k + 1..]);
    }
  }

  /** A node answers exactly two shapes of name, in any case and with any trailing
      dots: `host.quix`, and `host.network.quix` when the network is its own. */
  lemma HostInZoneExactly(qname: string, network: Option<string>, host: string)
    ensures HostInZone(qname, network) == Some(host) <==>
            && host != [] && '.' !in host
            && (|| InnerOf(qname) == Some(host)
                || (network.Some? && InnerOf(qname) == Some(host + ("." + network.value))))
  {
    var inner := InnerOf(qname);
    if HostInZone(qname, network) == Some(host) {
      HostShape(inner.value, network);
    } else if host != [] && '.' !in host {
      FlatHost(host, network);
      if network.Some? {
        QualifiedHost(host, network.value);
      }
    }
  }

  /** The same question is never about one host here and another there: two
      networks that both answer it answer for the same label. */
  lemma OneLabelEverywhere(qname: string, a: Option<string>, b: Option<string>)
    requires HostInZone(qname, a).Some? && HostInZone(qname, b).Some?
    ensures HostInZone(qname, a) == HostInZone(qname, b)
  {
  }

  /** The names a member is resolvable under: its fallback, always, and its hostname. */
  predicate Resolves(member: Member, name: string) {
    Fallback(member.id) == name || member.hostname == Some(name)
  }

  datatype Entry = Entry(name: string, id: Id)

  /** Every name the first `n` members are resolvable under, in order. */
  function Resolvable(members: seq<Member>, n: nat): (out: seq<Entry>)
    requires n <= |members|
  {
    if n == 0 then []
    else
      var member := members[n - 1];
      Resolvable(members, n - 1) + [Entry(Fallback(member.id), member.id)]
      + if member.hostname.Some? then [Entry(member.hostname.value, member.id)] else []
  }

  /** The members as the resolver takes them: which there are from one look at the
      roster, what they are called from another. */
  function Pieced(named: map<Id, string>, listed: seq<Id>): seq<Member> {
    seq(|listed|, i requires 0 <= i < |listed| =>
      Member(listed[i], if listed[i] in named then Some(named[listed[i]]) else None))
  }

  method ListResolvable(named: map<Id, string>, listed: seq<Id>) returns (out: seq<Entry>)
    ensures out == Resolvable(Pieced(named, listed), |listed|)
  {
    out := [];
    for i := 0 to |listed|
      invariant out == Resolvable(Pieced(named, listed), i)
    {
      out := out + [Entry(Fallback(listed[i]), listed[i])];
      if listed[i] in named {
        out := out + [Entry(named[listed[i]], listed[i])];
      }
    }
  }

  /** What is listed for a member is exactly what it resolves under. */
  lemma {:induction false} ResolvableExactly(members: seq<Member>, n: nat, e: Entry)
    requires n <= |members|
    ensures e in Resolvable(members, n) <==>
            exists i :: 0 <= i < n && members[i].id == e.id && Resolves(members[i], e.name)
  {
    if n > 0 {
      ResolvableExactly(members, n - 1, e);
      var last := members[n - 1];
      assert e in Resolvable(members, n) <==>
             e in Resolvable(members, n - 1) || (last.id == e.id && Resolves(last, e.name));
    }
  }

  /** The first entry from `i` on under this name, or the end. */
  function Lookup(entries: seq<Entry>, name: string, i: nat): (k: nat)
    requires i <= |entries|
    ensures i <= k <= |entries| && (k < |entries| ==> entries[k].name == name)
    ensures forall j :: i <= j < k ==> entries[j].name != name
    decreases |entries| - i
  {
    if i < |entries| && entries[i].name != name then Lookup(entries, name, i + 1) else i
  }

  datatype QType = A | AAAA | Other
  datatype Question = Question(qname: string, qtype: QType)
  datatype Record = Record(question: Question, id: Id)
  datatype Reply = Reply(questions: seq<Question>, answers: seq<Record>, nxdomain: bool)

  /** The member one question is about, if this node knows one. */
  function Asked(entries: seq<Entry>, network: Option<string>, q: Question): Option<Id> {
    var name := HostInZone(q.qname, network);
    if name.None? then None
    else
      var k := Lookup(entries, name.value, 0);
      if k < |entries| then Some(entries[k].id) else None
  }

  /** The records owed to the first `n` questions, in order, given which member
      each is about. */
  function Answers(asked: Question -> Option<Id>, questions: seq<Question>, n: nat): seq<Record>
    requires n <= |questions|
  {
    if n == 0 then []
    else
      var q := questions[n - 1];
      Answers(asked, questions, n - 1)
      + if asked(q).Some? && !q.qtype.Other? then [Record(q, asked(q).value)] else []
  }

  method AnswerEach(asked: Question -> Option<Id>, questions: seq<Question>) returns (reply: Reply)
    ensures reply.questions == questions
    ensures reply.answers == Answers(asked, questions, |questions|)
    ensures reply.nxdomain <==> forall i :: 0 <= i < |questions| ==> asked(questions[i]).None?
  {
    var echoed: seq<Question>, answers: seq<Record>, found := [], [], false;
    for i := 0 to |questions|
      invariant echoed == questions[..i]
      invariant answers == Answers(asked, questions, i)
      invariant found <==> exists j :: 0 <= j < i && asked(questions[j]).Some?
    {
      var q := questions[i];
      echoed := echoed + [q];
      if asked(q).Some? {
        if !q.qtype.Other? {
          answers := answers + [Record(q, asked(q).value)];
        }
        found := true;
      }
    }
    reply := Reply(echoed, answers, !found);
  }

  /** Every question is echoed, each known name of an address type gets its one
      record, and the reply denies the name exactly when no question named anyone. */
  method Answer(entries: seq<Entry>, network: Option<string>, questions: seq<Question>) returns (reply: Reply)
    ensures reply.questions == questions
    ensures reply.answers == Answers(q => Asked(entries, network, q), questions, |questions|)
    ensures reply.nxdomain <==> forall i :: 0 <= i < |questions| ==> Asked(entries, network, questions[i]).None?
  {
    reply := AnswerEach(q => Asked(entries, network, q), questions);
  }

  /** A reply's records name, for each question it answers, the one member that
      question is about -- and it answers every question it can. */
  lemma {:induction false} AnswersExactly(asked: Question -> Option<Id>, questions: seq<Question>, n: nat, r: Record)
    requires n <= |questions|
    ensures r in Answers(asked, questions, n) <==>
            && asked(r.question) == Some(r.id) && !r.question.qtype.Other?
            && r.question in questions[..n]
  {
    if n > 0 {
      AnswersExactly(asked, questions, n - 1, r);
      assert questions[..n] == questions[..n - 1] + [questions[n - 1]];
    }
  }
}
