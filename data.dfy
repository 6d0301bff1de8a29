/** Links' memoised coefficients and routes: link sequences with cached
    coefficient sums, their node-sequence form and their textual form. */
module Data {
  import opened Common
  import opened Network

  // ---------------------------------------------------------------------
  // link::a(), link::b(), link::taud()
  // ---------------------------------------------------------------------

  /** The memo fields of a link. A fresh link holds 0 in all three, and 0
      also means "not computed yet", so a coefficient that is genuinely 0
      is recomputed on every call. */
  class LinkMemo {
    const link: Link
    var memoA: real
    var memoB: real
    var memoTaud: real

    /** A filled memo for `a` or `b` holds the value of its formula. */
    ghost predicate Valid()
      reads this
    {
      (memoA == 0.0 || memoA == LinkA(link)) && (memoB == 0.0 || memoB == LinkB(link))
    }

    constructor (l: Link)
      ensures link == l && memoA == 0.0 && memoB == 0.0 && memoTaud == 0.0
      ensures Valid()
    {
      link := l;
      memoA, memoB, memoTaud := 0.0, 0.0, 0.0;
    }

    /** `link::a()`: always the formula's value; the memo is filled on the way. */
    method A() returns (r: real)
      requires Valid()
      modifies this
      ensures Valid() && r == LinkA(link)
      ensures memoA == r && memoB == old(memoB) && memoTaud == old(memoTaud)
    {
      if memoA != 0.0 {
        r := memoA;
      } else {
        memoA := LinkA(link);
        r := memoA;
      }
    }

    /** `link::b()`: always the formula's value; the memo is filled on the way. */
    method B() returns (r: real)
      requires Valid()
      modifies this
      ensures Valid() && r == LinkB(link)
      ensures memoB == r && memoA == old(memoA) && memoTaud == old(memoTaud)
    {
      if memoB != 0.0 {
        r := memoB;
      } else {
        memoB := LinkB(link);
        r := memoB;
      }
    }

    /** `link::taud()` for the current group size `numberAgents`: the first
        non-zero value computed is kept, whatever group size later calls
        pass. */
    method Taud(numberAgents: int) returns (r: real)
      requires Valid()
      modifies this
      ensures Valid()
      ensures old(memoTaud) != 0.0 ==> r == old(memoTaud)
      ensures old(memoTaud) == 0.0 ==> r == LinkTaud(link, numberAgents)
      ensures memoTaud == r
    {
      if memoTaud != 0.0 {
        r := memoTaud;
      } else {
        var a := A();
        var b := B();
        memoTaud := Latency(a, b, numberAgents as real);
        r := memoTaud;
      }
    }
  }

  /** On a link of positive length the per-agent time is positive for a
      group of one and larger for a group of two. */
  lemma TaudGrowsWithGroup(l: Link)
    requires l.length > 0.0
    ensures LinkTaud(l, 1) > 0.0
    ensures LinkTaud(l, 2) > LinkTaud(l, 1)
  {
    var a, b := LinkA(l), LinkB(l);
    assert LinkTaud(l, 1) == a + b;
    assert LinkTaud(l, 2) == 4.0 * a + b;
  }

  /** One link object asked for `taud` first while a group of one agent is
      routed, then while a group of two is: the second group reads the first
      group's value, not the time for two agents. */
  method StaleTaudAcrossGroups(l: Link) returns (first: real, second: real)
    requires l.length > 0.0
    ensures first == LinkTaud(l, 1)
    ensures second == first
    ensures second != LinkTaud(l, 2)
  {
    TaudGrowsWithGroup(l);
    var m := new LinkMemo(l);
    first := m.Taud(1);
    second := m.Taud(2);
  }

  // ---------------------------------------------------------------------
  // route
  // ---------------------------------------------------------------------

  /** A route: its links and its cached coefficient sums `_a`, `_b`. */
  datatype Route = Route(links: seq<Link>, a: real, b: real)

  /** The cached sums agree with the links. */
  predicate Consistent(r: Route)
  {
    r.a == SumA(r.links) && r.b == SumB(r.links)
  }

  /** `route(vector<link*>&)`: the links with their sums computed. */
  function RouteOf(links: seq<Link>): Route
  {
    Route(links, SumA(links), SumB(links))
  }

  /** `route::calculate_params`: accumulates the coefficients front to back. */
  method CalculateParams(links: seq<Link>) returns (r: Route)
    ensures r.links == links && Consistent(r)
  {
    var sa, sb := 0.0, 0.0;
    var i := 0;
    while i < |links|
      invariant 0 <= i <= |links|
      invariant sa == SumA(links[..i]) && sb == SumB(links[..i])
    {
      assert links[..i + 1][..i] == links[..i];
      sa := sa + LinkA(links[i]);
      sb := sb + LinkB(links[i]);
      i := i + 1;
    }
    assert links[..i] == links;
    r := Route(links, sa, sb);
  }

  /** `route(route& source, link* l)`. */
  function Extend(source: Route, l: Link): (r: Route)
    ensures r.links == source.links + [l]
    ensures Consistent(source) ==> Consistent(r)
  {
    assert (source.links + [l])[..|source.links|] == source.links;
    Route(source.links + [l], source.a + LinkA(l), source.b + LinkB(l))
  }

  /** `route::operator+`. */
  function Concat(p: Route, q: Route): (r: Route)
    ensures r.links == p.links + q.links
    ensures Consistent(p) && Consistent(q) ==> Consistent(r)
  {
    SumsAppend(p.links, q.links);
    Route(p.links + q.links, p.a + q.a, p.b + q.b)
  }

  /** `route::to_node_vec`: the start node, then the target of every link. */
  function ToNodeVec(links: seq<Link>): (r: seq<int>)
    requires |links| > 0
    ensures |r| == |links| + 1
  {
    [links[0].from] + seq(|links|, i requires 0 <= i < |links| => links[i].to)
  }

  /** On a walk, the node vector lists every link's source in order and ends
      at the walk's target. */
  lemma NodeVecOfWalk(links: seq<Link>, s: int, t: int)
    requires |links| > 0 && IsWalk(links, s, t)
    ensures ToNodeVec(links)[0] == s && ToNodeVec(links)[|links|] == t
    ensures forall i :: 0 <= i < |links| ==> ToNodeVec(links)[i] == links[i].from
    ensures forall i :: 0 <= i < |links| ==> ToNodeVec(links)[i + 1] == links[i].to
  {
    var r := ToNodeVec(links);
    forall i | 0 <= i < |links|
      ensures r[i] == links[i].from
    {
      if i > 0 {
        assert links[i - 1].to == links[i].from;
      }
    }
  }

  /** The link `initByNodeVec` keeps for the step to `next`: the last link in
      the outgoing list with that target. */
  function LastLinkTo(out: seq<Link>, next: int): (r: Option<Link>)
    ensures r.Some? ==> r.value in out && r.value.to == next
    ensures r.None? ==> forall l :: l in out ==> l.to != next
  {
    if |out| == 0 then None
    else if out[|out| - 1].to == next then Some(out[|out| - 1])
    else LastLinkTo(out[..|out| - 1], next)
  }

  /** Every node but the last indexes an adjacency list. */
  predicate NodesInRange(adj: Graph, nodes: seq<int>)
  {
    |nodes| > 0 && forall i :: 0 <= i < |nodes| - 1 ==> 0 <= nodes[i] < |adj|
  }

  /** The links `initByNodeVec` collects: one per consecutive node pair that
      has an outgoing link, nothing for a pair without one. */
  function LinksOfNodes(adj: Graph, nodes: seq<int>): seq<Link>
    requires NodesInRange(adj, nodes)
    decreases |nodes|
  {
    if |nodes| <= 1 then []
    else
      var prefix := LinksOfNodes(adj, nodes[..|nodes| - 1]);
      match LastLinkTo(adj[nodes[|nodes| - 2]], nodes[|nodes| - 1])
      case Some(l) => prefix + [l]
      case None => prefix
  }

  /** `route(vector<int>&)` through `initByNodeVec`: scans each node's
      outgoing links, keeps the last one that reaches the next node (a
      second match only overwrites the first), skips a pair with no match,
      and finally computes the sums. */
  method InitByNodeVec(adj: Graph, nodes: seq<int>) returns (r: Route)
    requires NodesInRange(adj, nodes)
    ensures r.links == LinksOfNodes(adj, nodes) && Consistent(r)
  {
    var links: seq<Link> := [];
    var i := 0;
    while i < |nodes| - 1
      invariant 0 <= i <= |nodes| - 1
      invariant links == LinksOfNodes(adj, nodes[..i + 1])
    {
      var node := nodes[i];
      var nextNode := nodes[i + 1];
      var out := adj[node];
      var found := false;
      var before := links;
      var j := 0;
      while j < |out|
        invariant 0 <= j <= |out|
        invariant found <==> LastLinkTo(out[..j], nextNode).Some?
        invariant !found ==> links == before
        invariant found ==> links == before + [LastLinkTo(out[..j], nextNode).value]
      {
        assert out[..j + 1][..j] == out[..j];
        var l := out[j];
        if l.to == nextNode {
          if !found {
            links := links + [l];
            found := true;
          } else {
            links := links[|links| - 1 := l];
          }
        }
        j := j + 1;
      }
      assert out[..j] == out;
      assert nodes[..i + 2][..i + 1] == nodes[..i + 1];
      i := i + 1;
    }
    assert nodes[..i + 1] == nodes;
    r := CalculateParams(links);
  }

  /** When every step of the node sequence has a link, `initByNodeVec`
      yields a walk through exactly those nodes. */
  lemma {:induction false} LinksOfNodesWalk(adj: Graph, nodes: seq<int>)
    requires ValidGraph(adj) && NodesInRange(adj, nodes) && |nodes| >= 2
    requires forall i :: 0 <= i < |nodes| - 1 ==> LastLinkTo(adj[nodes[i]], nodes[i + 1]).Some?
    ensures |LinksOfNodes(adj, nodes)| == |nodes| - 1
    ensures IsWalk(LinksOfNodes(adj, nodes), nodes[0], nodes[|nodes| - 1])
    ensures ToNodeVec(LinksOfNodes(adj, nodes)) == nodes
    decreases |nodes|
  {
    var n := |nodes|;
    var l := LastLinkTo(adj[nodes[n - 2]], nodes[n - 1]).value;
    assert l.from == nodes[n - 2];
    if n == 2 {
      assert LinksOfNodes(adj, nodes[..1]) == [];
      assert LinksOfNodes(adj, nodes) == [l];
    } else {
      var init := nodes[..n - 1];
      LinksOfNodesWalk(adj, init);
      var prefix := LinksOfNodes(adj, init);
      assert LinksOfNodes(adj, nodes) == prefix + [l];
      WalkSnoc(prefix, l, nodes[0]);
      var r := ToNodeVec(prefix + [l]);
      assert ToNodeVec(prefix) == init;
      forall i | 0 <= i < n
        ensures r[i] == nodes[i]
      {
        if i == 0 {
        } else if i < n - 1 {
          assert r[i] == (prefix + [l])[i - 1].to == prefix[i - 1].to == ToNodeVec(prefix)[i];
        }
      }
    }
  }

  /** Dropping the last link drops the last node. */
  lemma ToNodeVecPrefix(links: seq<Link>)
    requires |links| > 1
    ensures ToNodeVec(links[..|links| - 1]) == ToNodeVec(links)[..|links|]
  {
  }

  /** Round trip: the node vector of a walk whose every link is the one
      `initByNodeVec` picks for its pair rebuilds exactly that walk. */
  lemma {:induction false} NodeVecRoundTrip(adj: Graph, links: seq<Link>)
    requires |links| > 0 && Connected(links)
    requires forall i :: 0 <= i < |links| ==> 0 <= links[i].from < |adj|
    requires forall i :: 0 <= i < |links| ==> LastLinkTo(adj[links[i].from], links[i].to) == Some(links[i])
    ensures NodesInRange(adj, ToNodeVec(links))
    ensures LinksOfNodes(adj, ToNodeVec(links)) == links
    decreases |links|
  {
    var nodes := ToNodeVec(links);
    var n := |links|;
    NodeVecOfWalk(links, links[0].from, links[n - 1].to);
    assert NodesInRange(adj, nodes);
    assert nodes[n - 1] == links[n - 1].from && nodes[n] == links[n - 1].to;
    if n == 1 {
      assert LinksOfNodes(adj, nodes[..1]) == [];
    } else {
      var init := links[..n - 1];
      assert Connected(init);
      NodeVecRoundTrip(adj, init);
      ToNodeVecPrefix(links);
      assert LinksOfNodes(adj, nodes[..n]) == init;
      assert init + [links[n - 1]] == links;
    }
  }

  // ---------------------------------------------------------------------
  // route(std::string): whitespace-separated node ids
  // ---------------------------------------------------------------------

  /** The characters `isspace` accepts in the C locale. */
  predicate IsSpace(c: char)
  {
    c == ' ' || c == '\t' || c == '\n' || c == '\U{000B}' || c == '\U{000C}' || c == '\r'
  }

  /** Length of the leading run of non-space characters. */
  function WordLength(s: string): (n: nat)
    ensures n <= |s|
    ensures forall i :: 0 <= i < n ==> !IsSpace(s[i])
    ensures n < |s| ==> IsSpace(s[n])
  {
    if |s| == 0 || IsSpace(s[0]) then 0 else 1 + WordLength(s[1..])
  }

  /** What `istream_iterator<string>` reads: the maximal runs of non-space
      characters, in order. */
  function Tokens(s: string): (ts: seq<string>)
    ensures forall t :: t in ts ==> |t| > 0 && forall c :: c in t ==> !IsSpace(c)
    decreases |s|
  {
    if |s| == 0 then []
    else if IsSpace(s[0]) then Tokens(s[1..])
    else
      var n := WordLength(s);
      [s[..n]] + Tokens(s[n..])
  }

  predicate IsDigit(c: char)
  {
    '0' <= c <= '9'
  }

  function DigitValue(c: char): int
    requires IsDigit(c)
  {
    c as int - '0' as int
  }

  /** Length of the leading run of decimal digits. */
  function DigitRun(s: string): (n: nat)
    ensures n <= |s|
    ensures forall i :: 0 <= i < n ==> IsDigit(s[i])
    ensures n < |s| ==> !IsDigit(s[n])
  {
    if |s| == 0 || !IsDigit(s[0]) then 0 else 1 + DigitRun(s[1..])
  }

  /** The value of a string of decimal digits. */
  function DecimalValue(ds: string): nat
    requires forall i :: 0 <= i < |ds| ==> IsDigit(ds[i])
  {
    if |ds| == 0 then 0 else DecimalValue(ds[..|ds| - 1]) * 10 + DigitValue(ds[|ds| - 1])
  }

  /** `std::stoi` on a token: an optional sign, then the leading digit run;
      no digits (invalid_argument) or a value outside `int`
      (out_of_range) is an exception, modelled as None. */
  function Stoi(t: string): Option<int>
  {
    var signed := |t| > 0 && (t[0] == '-' || t[0] == '+');
    var rest := if signed then t[1..] else t;
    var n := DigitRun(rest);
    if n == 0 then None
    else
      var magnitude := DecimalValue(rest[..n]);
      var v: int := if signed && t[0] == '-' then -(magnitude as int) else magnitude;
      if IntMin <= v <= IntMax then Some(v) else None
  }

  /** The node ids of a node string, or None when `stoi` throws. */
  function ParseNodes(s: string): Option<seq<int>>
  {
    ParseAll(Tokens(s))
  }

  function ParseAll(ts: seq<string>): (r: Option<seq<int>>)
    ensures r.Some? ==> |r.value| == |ts|
  {
    if |ts| == 0 then Some([])
    else match (Stoi(ts[0]), ParseAll(ts[1..]))
      case (Some(v), Some(vs)) => Some([v] + vs)
      case _ => None
  }

  /** `route(std::string)`: parse the ids, then `initByNodeVec`. */
  method RouteFromString(adj: Graph, s: string) returns (r: Option<Route>)
    requires ParseNodes(s).Some? ==> NodesInRange(adj, ParseNodes(s).value)
    ensures ParseNodes(s).None? ==> r.None?
    ensures ParseNodes(s).Some? ==> r.Some? && r.value.links == LinksOfNodes(adj, ParseNodes(s).value)
    ensures r.Some? ==> Consistent(r.value)
  {
    var nodes := ParseNodes(s);
    if nodes.None? {
      return None;
    }
    var route := InitByNodeVec(adj, nodes.value);
    r := Some(route);
  }

  /** Decimal rendering of a natural number, most significant digit first. */
  function ShowNat(n: nat): (s: string)
    ensures |s| > 0 && forall i :: 0 <= i < |s| ==> IsDigit(s[i])
  {
    var d := [('0' as int + n % 10) as char];
    if n < 10 then d else ShowNat(n / 10) + d
  }

  /** Decimal rendering of an integer, as `std::to_string` writes it. */
  function Show(n: int): string
  {
    if n < 0 then "-" + ShowNat(-n) else ShowNat(n)
  }

  lemma {:induction false} ShowNatValue(n: nat)
    ensures DecimalValue(ShowNat(n)) == n
    ensures DigitRun(ShowNat(n)) == |ShowNat(n)|
    decreases n
  {
    var s := ShowNat(n);
    if n >= 10 {
      ShowNatValue(n / 10);
      assert s[..|s| - 1] == ShowNat(n / 10);
    }
    DigitRunAll(s);
  }

  lemma {:induction false} DigitRunAll(s: string)
    requires forall i :: 0 <= i < |s| ==> IsDigit(s[i])
    ensures DigitRun(s) == |s|
    decreases |s|
  {
    if |s| > 0 {
      DigitRunAll(s[1..]);
    }
  }

  /** `stoi` on a bare digit string yields its value when it fits. */
  lemma StoiDigits(ds: string)
    requires |ds| > 0 && forall i :: 0 <= i < |ds| ==> IsDigit(ds[i])
    requires DecimalValue(ds) <= IntMax
    ensures Stoi(ds) == Some(DecimalValue(ds))
  {
    DigitRunAll(ds);
    assert ds[..|ds|] == ds;
  }

  /** `stoi` on a minus sign and a digit string yields the negated value. */
  lemma StoiNegDigits(ds: string)
    requires |ds| > 0 && forall i :: 0 <= i < |ds| ==> IsDigit(ds[i])
    requires DecimalValue(ds) <= -IntMin
    ensures Stoi("-" + ds) == Some(-(DecimalValue(ds) as int))
  {
    DigitRunAll(ds);
    var t := "-" + ds;
    assert t[0] == '-' && t[1..] == ds;
    assert ds[..|ds|] == ds;
  }

  /** `stoi` reads back every `int` that `to_string` writes. */
  lemma StoiShow(n: int)
    requires IntMin <= n <= IntMax
    ensures Stoi(Show(n)) == Some(n)
  {
    if n < 0 {
      ShowNatValue(-n);
      StoiNegDigits(ShowNat(-n));
    } else {
      ShowNatValue(n);
      StoiDigits(ShowNat(n));
    }
  }

  /** Node ids written with single spaces between them, the form
      `route::to_string` produces. */
  function JoinIds(ns: seq<int>): string
  {
    if |ns| == 0 then ""
    else if |ns| == 1 then Show(ns[0])
    else Show(ns[0]) + " " + JoinIds(ns[1..])
  }

  lemma ShowIsWord(n: int)
    ensures |Show(n)| > 0 && forall c :: c in Show(n) ==> !IsSpace(c)
  {
    var s := Show(n);
    forall c | c in s
      ensures !IsSpace(c)
    {
      var i :| 0 <= i < |s| && s[i] == c;
      if n < 0 && i > 0 {
        assert s[i] == ShowNat(-n)[i - 1];
      }
    }
  }

  lemma {:induction false} WordLengthOfWord(w: string, rest: string)
    requires forall c :: c in w ==> !IsSpace(c)
    requires |rest| == 0 || IsSpace(rest[0])
    ensures WordLength(w + rest) == |w|
    decreases |w|
  {
    if |w| > 0 {
      assert (w + rest)[1..] == w[1..] + rest;
      WordLengthOfWord(w[1..], rest);
    } else {
      assert w + rest == rest;
    }
  }

  /** Tokenising the joined ids gives back one token per id. */
  lemma {:induction false} TokensOfJoin(ns: seq<int>)
    ensures |Tokens(JoinIds(ns))| == |ns|
    ensures forall i :: 0 <= i < |ns| ==> Tokens(JoinIds(ns))[i] == Show(ns[i])
    decreases |ns|
  {
    if |ns| == 1 {
      var w := Show(ns[0]);
      ShowIsWord(ns[0]);
      WordLengthOfWord(w, "");
      assert w + "" == w;
      assert w[|w|..] == "";
      assert w[..|w|] == w;
    } else if |ns| > 1 {
      var w := Show(ns[0]);
      var rest := JoinIds(ns[1..]);
      ShowIsWord(ns[0]);
      var s := w + " " + rest;
      WordLengthOfWord(w, " " + rest);
      assert s == w + (" " + rest);
      assert s[..|w|] == w;
      assert s[|w|..] == " " + rest;
      assert (" " + rest)[1..] == rest;
      TokensOfJoin(ns[1..]);
    }
  }

  /** Round trip: parsing the text form of a node sequence gives it back. */
  lemma ParseJoinRoundTrip(ns: seq<int>)
    requires forall i :: 0 <= i < |ns| ==> IntMin <= ns[i] <= IntMax
    ensures ParseNodes(JoinIds(ns)) == Some(ns)
  {
    TokensOfJoin(ns);
    var ts := Tokens(JoinIds(ns));
    forall i | 0 <= i < |ns|
      ensures Stoi(ts[i]) == Some(ns[i])
    {
      StoiShow(ns[i]);
    }
    ParseAllOk(ts, ns);
  }

  lemma {:induction false} ParseAllOk(ts: seq<string>, ns: seq<int>)
    requires |ts| == |ns|
    requires forall i :: 0 <= i < |ns| ==> Stoi(ts[i]) == Some(ns[i])
    ensures ParseAll(ts) == Some(ns)
    decreases |ts|
  {
    if |ts| > 0 {
      ParseAllOk(ts[1..], ns[1..]);
      assert [ns[0]] + ns[1..] == ns;
    }
  }
}
