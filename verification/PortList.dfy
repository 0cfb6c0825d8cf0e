/** `trim` and `parsePorts` of src/OpenOCDPortForwardPorts.cpp. */
module PortList {
  import opened Basics
  import opened Digits

  const UINT_END := 0x1_0000_0000
  const MAX_PORT := 65535

  // ----- Specification -----

  /** `std::isspace` in the C locale. */
  predicate IsSpace(c: char) {
    c == ' ' || '\t' <= c <= '\r'
  }

  predicate IsSeparator(c: char) {
    c == ':' || c == ',' || c == ';'
  }

  function TrimLeft(s: string): string {
    if s != [] && IsSpace(s[0]) then TrimLeft(s[1..]) else s
  }

  function TrimRight(s: string): string {
    if s != [] && IsSpace(s[|s| - 1]) then TrimRight(s[..|s| - 1]) else s
  }

  function Trim(s: string): string {
    TrimRight(TrimLeft(s))
  }

  /** Every separator becomes a colon. */
  function Normalize(s: string): string {
    seq(|s|, i requires 0 <= i < |s| => if IsSeparator(s[i]) then ':' else s[i])
  }

  function FindColon(s: string): (i: nat)
    ensures i <= |s|
    ensures i < |s| ==> s[i] == ':'
    ensures forall j :: 0 <= j < i ==> s[j] != ':'
  {
    if s == [] || s[0] == ':' then 0 else 1 + FindColon(s[1..])
  }

  /** What successive `getline` calls deliver: an empty rest delivers nothing. */
  function Tokens(s: string): seq<string> {
    if s == [] then []
    else
      var i := FindColon(s);
      [s[..i]] + if i < |s| then Tokens(s[i + 1..]) else []
  }

  datatype Token = Blank | Bad | Port(n: nat)

  function Classify(raw: string): Token {
    var t := Trim(raw);
    if t == [] then Blank
    else
      match FromChars(t, Dec, UINT_END)
      case Read(v, used) => if used == |t| && 1 <= v <= MAX_PORT then Port(v) else Bad
      case _ => Bad
  }

  /** One more token in front: a bad one spoils everything, a blank one adds nothing. */
  function Cons(t: Token, rest: Option<seq<nat>>): Option<seq<nat>> {
    if t.Bad? || rest.None? then None
    else if t.Blank? then rest
    else Some([t.n] + rest.value)
  }

  /** The ports of the tokens in order, None if one token is bad. */
  function Collect(ts: seq<string>): Option<seq<nat>> {
    if ts == [] then Some([]) else Cons(Classify(ts[0]), Collect(ts[1..]))
  }

  function Join(a: Option<seq<nat>>, b: Option<seq<nat>>): Option<seq<nat>> {
    if a.None? || b.None? then None else Some(a.value + b.value)
  }

  predicate Increasing(ps: seq<nat>) {
    forall i, j :: 0 <= i < j < |ps| ==> ps[i] < ps[j]
  }

  function Insert(p: nat, ps: seq<nat>): seq<nat> {
    if ps == [] || p < ps[0] then [p] + ps
    else if p == ps[0] then ps
    else [ps[0]] + Insert(p, ps[1..])
  }

  /** `sort`, `unique` and `erase` */
  function SortUnique(ps: seq<nat>): seq<nat> {
    if ps == [] then [] else Insert(ps[0], SortUnique(ps[1..]))
  }

  function Ports(s: string): Option<seq<nat>> {
    Collect(Tokens(Normalize(s)))
  }

  function ParsedPorts(s: string): seq<nat> {
    match Ports(s) case None => [] case Some(ps) => SortUnique(ps)
  }

  // ----- The source's own form -----

  method TrimString(s: string) returns (r: string)
    ensures r == Trim(s)
  {
    var first := 0;
    while first < |s| && IsSpace(s[first])
      invariant first <= |s|
      invariant TrimLeft(s) == TrimLeft(s[first..])
    {
      assert s[first..][1..] == s[first + 1..];
      first := first + 1;
    }
    ghost var left := TrimLeft(s);
    assert left == s[first..] == s[first..|s|];
    var last := |s|;
    while last > first && IsSpace(s[last - 1])
      invariant first <= last <= |s|
      invariant TrimRight(left) == TrimRight(s[first..last])
    {
      assert s[first..last][..last - first - 1] == s[first..last - 1];
      last := last - 1;
    }
    r := s[first..last];
  }

  /** `getline(stream, token, ':')` from position `start`. */
  method GetLine(stream: string, start: nat) returns (token: string, next: nat)
    requires start < |stream|
    ensures start < next <= |stream|
    ensures Collect(Tokens(stream[start..])) == Cons(Classify(token), Collect(Tokens(stream[next..])))
  {
    var pos := start;
    while pos < |stream| && stream[pos] != ':'
      invariant start <= pos <= |stream|
      invariant forall j :: start <= j < pos ==> stream[j] != ':'
    {
      pos := pos + 1;
    }
    NextToken(stream, start, pos);
    token := stream[start..pos];
    next := if pos < |stream| then pos + 1 else pos;
  }

  /** Trimming, `from_chars` and the range checks for one token. */
  method ReadToken(raw: string) returns (t: Token)
    ensures t == Classify(raw)
  {
    var token := TrimString(raw);
    if token == [] {
      return Blank;
    }
    var parsed := FromChars(token, Dec, UINT_END);
    if !parsed.Read? || parsed.used != |token| {
      return Bad;
    }
    if parsed.value == 0 || parsed.value > MAX_PORT {
      return Bad;
    }
    return Port(parsed.value);
  }

  method ParsePorts(portList: string) returns (ports: seq<nat>)
    ensures ports == ParsedPorts(portList)
  {
    ports := [];
    var stream := Normalize(portList);
    var pos := 0;
    assert stream[0..] == stream;
    JoinLaws([], Blank, Collect(Tokens(stream)));
    while pos < |stream|
      invariant pos <= |stream|
      invariant Collect(Tokens(stream)) == Join(Some(ports), Collect(Tokens(stream[pos..])))
    {
      var raw, next := GetLine(stream, pos);
      var token := ReadToken(raw);
      ghost var rest := Collect(Tokens(stream[next..]));
      pos := next;
      match token {
        case Blank =>
        case Bad =>
          return [];
        case Port(n) =>
          JoinLaws(ports, token, rest);
          ports := ports + [n];
      }
    }
    assert stream[pos..] == [];
    JoinLaws(ports, Blank, Some(ports));
    ports := SortUnique(ports);
  }

  lemma JoinLaws(ps: seq<nat>, t: Token, rest: Option<seq<nat>>)
    ensures Join(Some([]), rest) == rest && Join(rest, Some([])) == rest
    ensures t.Port? ==> Join(Some(ps), Cons(t, rest)) == Join(Some(ps + [t.n]), rest)
  {
    if rest.Some? {
      assert [] + rest.value == rest.value && rest.value + [] == rest.value;
      if t.Port? { assert ps + ([t.n] + rest.value) == (ps + [t.n]) + rest.value; }
    }
  }

  lemma CollectCons(t: string, ts: seq<string>)
    ensures Collect([t] + ts) == Cons(Classify(t), Collect(ts))
  {
    assert ([t] + ts)[1..] == ts;
  }

  lemma CollectStep(s: string)
    requires s != []
    ensures var i := FindColon(s);
      Collect(Tokens(s)) == Cons(Classify(s[..i]), if i < |s| then Collect(Tokens(s[i + 1..])) else Some([]))
  {
    var i := FindColon(s);
    TokensStep(s);
    CollectCons(s[..i], if i < |s| then Tokens(s[i + 1..]) else []);
  }

  lemma TokensStep(s: string)
    requires s != []
    ensures var i := FindColon(s);
      Tokens(s) == [s[..i]] + if i < |s| then Tokens(s[i + 1..]) else []
  {
  }

  predicate NoColon(s: string) {
    forall j :: 0 <= j < |s| ==> s[j] != ':'
  }

  lemma FindColonIs(s: string, k: nat)
    requires k <= |s| && (k < |s| ==> s[k] == ':') && forall j :: 0 <= j < k ==> s[j] != ':'
    ensures FindColon(s) == k
  {
  }

  /** The tokens of `head:tail` are `head` and the tokens of the tail. */
  lemma CollectHead(head: string, tail: string)
    requires NoColon(head)
    ensures Collect(Tokens(head + ":" + tail)) == Cons(Classify(head), Collect(Tokens(tail)))
  {
    var s, i := head + ":" + tail, |head|;
    assert s[..i] == head && s[i] == ':' && s[i + 1..] == tail;
    FindColonIs(s, i);
    CollectStep(s);
  }

  /** A string without colon is one token; the empty one is none, or a blank one. */
  lemma CollectSingle(head: string)
    requires NoColon(head)
    ensures Collect(Tokens(head)) == Cons(Classify(head), Some([]))
  {
    assert head[..|head|] == head;
    FindColonIs(head, |head|);
    if head != [] { CollectStep(head); }
  }

  lemma NextToken(stream: string, start: nat, pos: nat)
    requires start < |stream| && start <= pos <= |stream|
    requires forall j :: start <= j < pos ==> stream[j] != ':'
    requires pos < |stream| ==> stream[pos] == ':'
    ensures Collect(Tokens(stream[start..])) ==
      Cons(Classify(stream[start..pos]), Collect(Tokens(stream[if pos < |stream| then pos + 1 else pos..])))
  {
    var head := stream[start..pos];
    if pos < |stream| {
      var tail := stream[pos + 1..];
      assert stream[start..] == head + ":" + tail;
      CollectHead(head, tail);
    } else {
      assert stream[start..] == head && stream[pos..] == [];
      CollectSingle(head);
    }
  }

  // ----- Canonical form -----

  lemma {:induction false} InsertIsUnion(p: nat, ps: seq<nat>)
    requires Increasing(ps)
    ensures Increasing(Insert(p, ps))
    ensures forall q :: q in Insert(p, ps) <==> q == p || q in ps
  {
    if ps != [] && ps[0] < p {
      InsertIsUnion(p, ps[1..]);
      var rest := Insert(p, ps[1..]);
      forall j | 0 <= j < |rest| ensures ps[0] < rest[j] {
        assert rest[j] in rest;
      }
      assert forall q :: q in ps <==> q == ps[0] || q in ps[1..];
    }
  }

  lemma {:induction false} SortUniqueIsSet(ps: seq<nat>)
    ensures Increasing(SortUnique(ps))
    ensures forall q :: q in SortUnique(ps) <==> q in ps
  {
    if ps != [] {
      SortUniqueIsSet(ps[1..]);
      InsertIsUnion(ps[0], SortUnique(ps[1..]));
      assert forall q :: q in ps <==> q == ps[0] || q in ps[1..];
    }
  }

  lemma HasMember(ps: seq<nat>)
    ensures ps != [] ==> exists x :: x in ps
  {
    if ps != [] { assert ps[0] in ps; }
  }

  /** A strictly increasing list is determined by its set. */
  lemma {:induction false} IncreasingIsUnique(ps: seq<nat>, qs: seq<nat>)
    requires Increasing(ps) && Increasing(qs) && forall x :: x in ps <==> x in qs
    ensures ps == qs
  {
    HasMember(ps);
    HasMember(qs);
    if ps != [] {
      assert ps[0] in qs;
      var k :| 0 <= k < |qs| && qs[k] == ps[0];
      assert qs[0] in ps;
      var m :| 0 <= m < |ps| && ps[m] == qs[0];
      assert ps[0] == qs[0];
      forall x ensures x in ps[1..] <==> x in qs[1..] {
        assert x in ps <==> x == ps[0] || x in ps[1..];
        assert x in qs <==> x == qs[0] || x in qs[1..];
        if x in ps[1..] { assert x != ps[0]; }
        if x in qs[1..] { assert x != qs[0]; }
      }
      IncreasingIsUnique(ps[1..], qs[1..]);
    }
  }

  lemma {:induction false} CollectIsClassify(ts: seq<string>)
    ensures Collect(ts).None? <==> exists t :: t in ts && Classify(t).Bad?
    ensures Collect(ts).Some? ==> forall n :: n in Collect(ts).value <==> exists t :: t in ts && Classify(t) == Port(n)
  {
    if ts != [] {
      CollectIsClassify(ts[1..]);
      assert forall t :: t in ts <==> t == ts[0] || t in ts[1..];
      if Collect(ts).Some? {
        forall n ensures n in Collect(ts).value <==> exists t :: t in ts && Classify(t) == Port(n) {
          if Classify(ts[0]) == Port(n) { assert ts[0] in ts; }
        }
      }
    }
  }

  /** The result is strictly increasing and within 1..65535; it holds exactly the ports the
      tokens name, unless some token is bad: then, or when there is no port, it is empty. */
  lemma PortsAreCanonical(s: string)
    ensures var ts, ps := Tokens(Normalize(s)), ParsedPorts(s);
      && Increasing(ps)
      && (forall p :: p in ps ==> 1 <= p <= 65535)
      && (forall p :: p in ps <==>
            (forall t :: t in ts ==> !Classify(t).Bad?) && exists t :: t in ts && Classify(t) == Port(p))
  {
    CollectIsClassify(Tokens(Normalize(s)));
    if Ports(s).Some? {
      SortUniqueIsSet(Ports(s).value);
    }
  }

  /** Only the set of ports matters. */
  lemma SameSetSameResult(ps: seq<nat>, qs: seq<nat>)
    requires forall x :: x in ps <==> x in qs
    ensures SortUnique(ps) == SortUnique(qs)
  {
    SortUniqueIsSet(ps);
    SortUniqueIsSet(qs);
    IncreasingIsUnique(SortUnique(ps), SortUnique(qs));
  }

  /** Some token of the list reads as `t`. */
  ghost predicate Names(s: string, t: Token) {
    exists raw :: raw in Tokens(Normalize(s)) && Classify(raw) == t
  }

  /** Two lists with the same ports and the same bad tokens, in any order, any number of times,
      with any separators and any blank tokens between them, parse to the same result. */
  lemma OnlyTokensMatter(a: string, b: string)
    requires forall t: Token :: !t.Blank? ==> (Names(a, t) <==> Names(b, t))
    ensures ParsedPorts(a) == ParsedPorts(b)
  {
    PortsAreCanonical(a);
    PortsAreCanonical(b);
    NoBadToken(a);
    NoBadToken(b);
    forall p ensures p in ParsedPorts(a) <==> p in ParsedPorts(b) {
      assert Names(a, Port(p)) <==> Names(b, Port(p));
    }
    IncreasingIsUnique(ParsedPorts(a), ParsedPorts(b));
  }

  lemma NoBadToken(s: string)
    ensures (forall raw :: raw in Tokens(Normalize(s)) ==> !Classify(raw).Bad?) <==> !Names(s, Bad)
  {
  }

  /** `1:2:3` and `2;1,3`, for any three parts without separators. */
  lemma ReorderedParts(a: string, b: string, c: string, seps: (char, char), seps': (char, char))
    requires IsSeparator(seps.0) && IsSeparator(seps.1) && IsSeparator(seps'.0) && IsSeparator(seps'.1)
    ensures ParsedPorts(a + [seps.0] + b + [seps.1] + c) == ParsedPorts(b + [seps'.0] + a + [seps'.1] + c)
  {
    PortsOfJoin(a, seps.0, b);
    PortsOfJoin(a + [seps.0] + b, seps.1, c);
    PortsOfJoin(b, seps'.0, a);
    PortsOfJoin(b + [seps'.0] + a, seps'.1, c);
    if Ports(a).Some? && Ports(b).Some? && Ports(c).Some? {
      var pa, pb, pc := Ports(a).value, Ports(b).value, Ports(c).value;
      SameSetSameResult(pa + pb + pc, pb + pa + pc);
    }
  }

  // ----- Joining two lists -----

  lemma JoinCons(t: Token, a: Option<seq<nat>>, b: Option<seq<nat>>)
    ensures Join(Cons(t, a), b) == Cons(t, Join(a, b))
  {
    if t.Port? && a.Some? && b.Some? {
      assert ([t.n] + a.value) + b.value == [t.n] + (a.value + b.value);
    }
  }

  lemma SplitAtColon(a: string)
    ensures var i := FindColon(a);
      && NoColon(a[..i])
      && a == if i == |a| then a[..i] else a[..i] + ":" + a[i + 1..]
  {
    SplitAt(a, FindColon(a));
  }

  lemma SplitAt(a: string, i: nat)
    requires i <= |a|
    ensures i < |a| && a[i] == ':' ==> a == a[..i] + ":" + a[i + 1..]
    ensures a[..|a|] == a
  {
  }

  lemma Reassociate(head: string, rest: string, b: string)
    ensures (head + ":" + rest) + ":" + b == head + ":" + (rest + ":" + b)
    ensures (head + ":" + rest) + b == head + ":" + (rest + b)
    ensures b + (head + ":" + rest) == (b + head) + ":" + rest
  {
  }

  lemma HeadJoins(head: string, b: string)
    requires NoColon(head)
    ensures Collect(Tokens(head + ":" + b)) == Join(Collect(Tokens(head)), Collect(Tokens(b)))
  {
    CollectHead(head, b);
    CollectSingle(head);
    JoinCons(Classify(head), Some([]), Collect(Tokens(b)));
    JoinLaws([], Blank, Collect(Tokens(b)));
  }

  lemma HeadInFrontJoins(head: string, rest: string, b: string)
    requires NoColon(head) && Collect(Tokens(rest + ":" + b)) == Join(Collect(Tokens(rest)), Collect(Tokens(b)))
    ensures Collect(Tokens((head + ":" + rest) + ":" + b)) ==
      Join(Collect(Tokens(head + ":" + rest)), Collect(Tokens(b)))
  {
    CollectHead(head, rest);
    CollectHead(head, rest + ":" + b);
    Reassociate(head, rest, b);
    JoinCons(Classify(head), Collect(Tokens(rest)), Collect(Tokens(b)));
  }

  /** What a list joined from two yields is joined from what each yields. */
  lemma {:induction false} CollectOfJoin(a: string, b: string)
    ensures Collect(Tokens(a + ":" + b)) == Join(Collect(Tokens(a)), Collect(Tokens(b)))
    decreases |a|
  {
    var i := FindColon(a);
    SplitAtColon(a);
    if i == |a| {
      HeadJoins(a, b);
    } else {
      CollectOfJoin(a[i + 1..], b);
      HeadInFrontJoins(a[..i], a[i + 1..], b);
    }
  }

  lemma PortsOfJoin(a: string, sep: char, b: string)
    requires IsSeparator(sep)
    ensures Ports(a + [sep] + b) == Join(Ports(a), Ports(b))
  {
    assert Normalize(a + [sep] + b) == Normalize(a) + ":" + Normalize(b);
    CollectOfJoin(Normalize(a), Normalize(b));
  }

  /** Neither the order of the parts nor the choice of separator matters, and repeating a part
      adds nothing. */
  lemma OrderAndRepeatsDoNotMatter(a: string, b: string, sep: char, sep': char)
    requires IsSeparator(sep) && IsSeparator(sep')
    ensures ParsedPorts(a + [sep] + b) == ParsedPorts(b + [sep'] + a)
    ensures ParsedPorts(a + [sep] + a) == ParsedPorts(a)
  {
    PortsOfJoin(a, sep, b);
    PortsOfJoin(b, sep', a);
    PortsOfJoin(a, sep, a);
    if Ports(a).Some? && Ports(b).Some? {
      SameSetSameResult(Ports(a).value + Ports(b).value, Ports(b).value + Ports(a).value);
    }
    if Ports(a).Some? {
      SameSetSameResult(Ports(a).value + Ports(a).value, Ports(a).value);
    }
  }

  // ----- Surrounding blanks -----

  predicate AllSpace(s: string) {
    forall i :: 0 <= i < |s| ==> IsSpace(s[i])
  }

  lemma {:induction false} TrimLeftSkips(w: string, s: string)
    requires AllSpace(w)
    ensures TrimLeft(w + s) == TrimLeft(s)
  {
    if w != [] {
      assert (w + s)[1..] == w[1..] + s;
      TrimLeftSkips(w[1..], s);
    } else {
      assert w + s == s;
    }
  }

  lemma {:induction false} TrimRightSkips(s: string, w: string)
    requires AllSpace(w)
    ensures TrimRight(s + w) == TrimRight(s)
  {
    if w != [] {
      assert (s + w)[..|s + w| - 1] == s + w[..|w| - 1];
      TrimRightSkips(s, w[..|w| - 1]);
    } else {
      assert s + w == s;
    }
  }

  lemma {:induction false} TrimLeftOfSuffix(s: string, w: string)
    requires AllSpace(w)
    ensures TrimLeft(s + w) == (if AllSpace(s) then [] else TrimLeft(s) + w)
    ensures AllSpace(s) ==> TrimLeft(s) == []
  {
    if s == [] {
      assert s + w == w + [];
      TrimLeftSkips(w, []);
    } else {
      assert (s + w)[1..] == s[1..] + w;
      TrimLeftOfSuffix(s[1..], w);
      if IsSpace(s[0]) && AllSpace(s[1..]) { assert AllSpace(s); }
    }
  }

  lemma TrimIgnoresBlanks(w: string, s: string, w': string)
    requires AllSpace(w) && AllSpace(w')
    ensures Trim(w + s + w') == Trim(s)
  {
    assert w + s + w' == w + (s + w');
    TrimLeftSkips(w, s + w');
    TrimLeftOfSuffix(s, w');
    if !AllSpace(s) {
      TrimRightSkips(TrimLeft(s), w');
    }
  }

  lemma SpaceHasNoColon(w: string)
    requires AllSpace(w)
    ensures NoColon(w)
  {
    forall j | 0 <= j < |w| ensures w[j] != ':' {
      assert IsSpace(w[j]);
    }
  }

  /** Blanks around a single token. */
  lemma TokenIgnoresBlanks(w: string, head: string, w': string)
    requires AllSpace(w) && AllSpace(w') && NoColon(head)
    ensures NoColon(w + head + w') && Classify(w + head + w') == Classify(head)
  {
    SpaceHasNoColon(w);
    SpaceHasNoColon(w');
    TrimIgnoresBlanks(w, head, w');
  }

  lemma BlanksInFrontOfToken(w: string, head: string)
    requires AllSpace(w) && NoColon(head)
    ensures NoColon(w + head) && Classify(w + head) == Classify(head)
  {
    TokenIgnoresBlanks(w, head, []);
    assert w + head + [] == w + head;
  }

  lemma SameHeads(head: string, head': string, rest: string)
    requires NoColon(head) && NoColon(head') && Classify(head) == Classify(head')
    ensures Collect(Tokens(head)) == Collect(Tokens(head'))
    ensures Collect(Tokens(head + ":" + rest)) == Collect(Tokens(head' + ":" + rest))
  {
    CollectSingle(head);
    CollectSingle(head');
    CollectHead(head, rest);
    CollectHead(head', rest);
  }

  lemma SameRests(head: string, rest: string, rest': string)
    requires NoColon(head) && Collect(Tokens(rest)) == Collect(Tokens(rest'))
    ensures Collect(Tokens(head + ":" + rest)) == Collect(Tokens(head + ":" + rest'))
  {
    CollectHead(head, rest);
    CollectHead(head, rest');
  }

  /** Blanks in front of a list. */
  lemma BlanksInFront(w: string, s: string)
    requires AllSpace(w)
    ensures Collect(Tokens(w + s)) == Collect(Tokens(s))
  {
    var i := FindColon(s);
    var head, rest := s[..i], if i < |s| then s[i + 1..] else [];
    SplitAtColon(s);
    BlanksInFrontOfToken(w, head);
    SameHeads(head, w + head, rest);
    if i < |s| { Reassociate(head, rest, w); }
  }

  /** Blanks behind a list. */
  lemma {:induction false} BlanksBehind(s: string, w: string)
    requires AllSpace(w)
    ensures Collect(Tokens(s + w)) == Collect(Tokens(s))
    decreases |s|
  {
    var i := FindColon(s);
    SplitAtColon(s);
    if i == |s| {
      TokenIgnoresBlanks([], s, w);
      assert [] + s + w == s + w;
      SameHeads(s, s + w, []);
    } else {
      BlanksBehind(s[i + 1..], w);
      Reassociate(s[..i], s[i + 1..], w);
      SameRests(s[..i], s[i + 1..], s[i + 1..] + w);
    }
  }

  lemma NormalizeKeepsBlanks(w: string)
    requires AllSpace(w)
    ensures Normalize(w) == w
  {
    forall j | 0 <= j < |w| ensures !IsSeparator(w[j]) {
      assert IsSpace(w[j]);
    }
  }

  /** Blanks around the list do not matter; with PortsOfJoin, neither do blanks around any part. */
  lemma BlanksDoNotMatter(w: string, s: string, w': string)
    requires AllSpace(w) && AllSpace(w')
    ensures Ports(w + s + w') == Ports(s) && ParsedPorts(w + s + w') == ParsedPorts(s)
  {
    NormalizeBetweenBlanks(w, s, w');
    BlanksInFront(w, Normalize(s) + w');
    BlanksBehind(Normalize(s), w');
    assert Ports(w + s + w') == Ports(s);
  }

  lemma NormalizeBetweenBlanks(w: string, s: string, w': string)
    requires AllSpace(w) && AllSpace(w')
    ensures Normalize(w + s + w') == w + (Normalize(s) + w')
  {
    NormalizeKeepsBlanks(w);
    NormalizeKeepsBlanks(w');
    assert Normalize(w + s + w') == Normalize(w) + (Normalize(s) + Normalize(w'));
  }

  // ----- Characters and tokens -----

  /** White space of the C locale, and the three separators. */
  lemma CharactersAre(c: char)
    ensures IsSpace(c) <==> c as int in {9, 10, 11, 12, 13, 32}
    ensures IsSeparator(c) <==> c in {':', ',', ';'}
  {
  }

  /** Normalizing turns each separator into a colon and leaves every other character. */
  lemma NormalizeIs(s: string, i: nat)
    requires i < |s|
    ensures |Normalize(s)| == |s| && Normalize(s)[i] == if s[i] == ',' || s[i] == ';' then ':' else s[i]
  {
  }

  function Glue(ts: seq<string>): string {
    if ts == [] then [] else if |ts| == 1 then ts[0] else ts[0] + ":" + Glue(ts[1..])
  }

  /** The tokens have no colon, and with colons between them they are the string again, up to one
      final colon. */
  lemma {:induction false} TokensAreParts(s: string)
    ensures forall t :: t in Tokens(s) ==> NoColon(t)
    ensures s == Glue(Tokens(s)) || s == Glue(Tokens(s)) + ":"
    decreases |s|
  {
    if s != [] {
      var i := FindColon(s);
      TokensStep(s);
      SplitAtColon(s);
      if i < |s| {
        var rest := s[i + 1..];
        TokensAreParts(rest);
        var ts := Tokens(rest);
        if ts != [] { GlueCons(s[..i], ts); }
      }
    }
  }

  lemma GlueCons(t: string, ts: seq<string>)
    requires ts != []
    ensures Glue([t] + ts) == t + ":" + Glue(ts)
  {
    assert ([t] + ts)[1..] == ts;
  }

  /** A string without white space at its ends is its own trimmed form; with TrimIgnoresBlanks this
      says what trimming does. */
  lemma TrimKeeps(s: string)
    requires s == [] || (!IsSpace(s[0]) && !IsSpace(s[|s| - 1]))
    ensures Trim(s) == s
  {
  }

  /** A token is blank when nothing but white space is in it, a port when what is left after trimming
      is all decimal digits with a value from 1 to 65535, and bad otherwise. */
  lemma ClassifyIs(raw: string)
    ensures var t := Trim(raw);
      && (Classify(raw) == Blank <==> t == [])
      && (forall n :: Classify(raw) == Port(n) <==>
            t != [] && AllDigits(t, Dec) && Value(t, Dec) == n && 1 <= n <= 65535)
      && (Classify(raw) == Bad <==> t != [] && !(AllDigits(t, Dec) && 1 <= Value(t, Dec) <= 65535))
  {
    var t := Trim(raw);
    if t != [] && AllDigits(t, Dec) {
      FromCharsReadsDigits(t, Dec, UINT_END);
    } else if t != [] {
      assert t[..|t|] == t;
    }
  }

  // ----- Round trip -----

  function PrintPorts(ps: seq<nat>): string {
    if ps == [] then []
    else if |ps| == 1 then Print(ps[0], Dec)
    else Print(ps[0], Dec) + ":" + PrintPorts(ps[1..])
  }

  lemma {:induction false} TrimOfDigits(s: string)
    requires s != [] && AllDigits(s, Dec)
    ensures Trim(s) == s && Normalize(s) == s && FindColon(s) == |s|
  {
    assert DigitVal(s[0]) < 10 && DigitVal(s[|s| - 1]) < 10;
    forall j | 0 <= j < |s| ensures s[j] != ':' && !IsSeparator(s[j]) {
      assert DigitVal(s[j]) < 10;
    }
  }

  lemma PrintedPort(p: nat)
    requires 1 <= p <= MAX_PORT
    ensures Ports(Print(p, Dec)) == Some([p])
  {
    var s := Print(p, Dec);
    PrintRoundTrip(p, Dec);
    TrimOfDigits(s);
    FromCharsReadsDigits(s, Dec, UINT_END);
    assert s[..|s|] == s && Classify(s) == Port(p);
    assert [p] + [] == [p];
    CollectStep(s);
  }

  lemma {:induction false} PrintedPorts(ps: seq<nat>)
    requires forall p :: p in ps ==> 1 <= p <= MAX_PORT
    ensures Ports(PrintPorts(ps)) == Some(ps)
  {
    if ps == [] {
      assert Normalize([]) == [];
    } else {
      var p, rest := ps[0], ps[1..];
      assert ps == [p] + rest && p in ps && forall q :: q in rest ==> q in ps;
      PrintedPort(p);
      if rest != [] {
        PrintedPorts(rest);
        PortsOfJoin(Print(p, Dec), ':', PrintPorts(rest));
        assert PrintPorts(ps) == Print(p, Dec) + [':'] + PrintPorts(rest);
      } else {
        assert ps == [p];
      }
    }
  }

  /** Printing a strictly increasing list of ports and parsing it returns the list. */
  lemma PortListRoundTrip(ps: seq<nat>)
    requires Increasing(ps) && forall p :: p in ps ==> 1 <= p <= MAX_PORT
    ensures ParsedPorts(PrintPorts(ps)) == ps
  {
    PrintedPorts(ps);
    SortUniqueIsSet(ps);
    IncreasingIsUnique(SortUnique(ps), ps);
  }
}
