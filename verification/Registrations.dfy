/** Device registrations: the canonical string used to detect changes, and the address format the
    backends publish. */
module Registrations {
  import opened Options
  import opened Strings
  import opened Decimal

  datatype DeviceRegistration = DeviceRegistration(id: string, ip: string, port: int)

  function FullString(d: DeviceRegistration): string {
    d.id + "-" + d.ip + "-" + Itoa(d.port)
  }

  function Rendered(list: seq<DeviceRegistration>): seq<string> {
    seq(|list|, i requires 0 <= i < |list| => FullString(list[i]))
  }

  function ListString(list: seq<DeviceRegistration>): string {
    if list == [] then "" else "[" + Join(Sort(Rendered(list)), ',') + "]"
  }

  /** FullString of a list, as the program computes it. */
  method FullStringOfList(list: seq<DeviceRegistration>) returns (s: string)
    ensures s == ListString(list)
  {
    if |list| == 0 {
      return "";
    }
    var slist: seq<string> := [];
    for i := 0 to |list|
      invariant slist == Rendered(list[..i])
    {
      slist := slist + [FullString(list[i])];
      assert Rendered(list[..i + 1]) == Rendered(list[..i]) + [FullString(list[i])];
    }
    assert list[..|list|] == list;
    var a := new string[|slist|](i requires 0 <= i < |slist| => slist[i]);
    assert a[..] == slist;
    SortStrings(a);
    s := "[" + Join(a[..], ',') + "]";
  }

  // ---------------------------------------------------------------- change detection

  /** Two conditions under which the canonical string tells lists apart: no dash in IPs and no comma in
      IDs, or IDs all of one length, as device IDs are, and no comma in IPs. In both cases ports are not
      negative. */
  datatype Shape = NoDash | IdLength(n: nat)

  predicate Fits(shape: Shape, d: DeviceRegistration) {
    && d.port >= 0
    && match shape
       case NoDash => ',' !in d.id && '-' !in d.ip
       case IdLength(n) => |d.id| == n && ',' !in d.ip
  }

  ghost predicate Renderable(shape: Shape, list: seq<DeviceRegistration>) {
    forall d :: d in list ==> Fits(shape, d)
  }

  /** Cutting at the last separator is unambiguous. */
  lemma CutAtLast(a: string, x: string, b: string, y: string, c: char)
    requires a + [c] + x == b + [c] + y && c !in x && c !in y
    ensures a == b && x == y
  {
    var s, t := a + [c] + x, b + [c] + y;
    assert s[|a|] == c && t[|b|] == c;
    assert forall k :: |a| < k < |s| ==> s[k] in x;
    assert forall k :: |b| < k < |t| ==> t[k] in y;
    assert a == s[..|a|] && b == t[..|b|] && x == s[|a| + 1..] && y == t[|b| + 1..];
  }

  lemma FullStringInjective(shape: Shape, d: DeviceRegistration, e: DeviceRegistration)
    requires Fits(shape, d) && Fits(shape, e) && FullString(d) == FullString(e)
    ensures d == e
  {
    PrintedBytes(d.port);
    PrintedBytes(e.port);
    CutAtLast(d.id + "-" + d.ip, Itoa(d.port), e.id + "-" + e.ip, Itoa(e.port), '-');
    DigitsInjective(d.port, e.port);
    match shape
    case NoDash => CutAtLast(d.id, d.ip, e.id, e.ip, '-');
    case IdLength(n) =>
      assert d.id + ("-" + d.ip) == d.id + "-" + d.ip && e.id + ("-" + e.ip) == e.id + "-" + e.ip;
      CutAtLength(d.id, "-" + d.ip, e.id, "-" + e.ip);
      CutAtLength("-", d.ip, "-", e.ip);
  }

  lemma CutAtLength(a: string, x: string, b: string, y: string)
    requires a + x == b + y && |a| == |b|
    ensures a == b && x == y
  {
    assert a == (a + x)[..|a|] && b == (b + y)[..|b|];
    assert x == (a + x)[|a|..] && y == (b + y)[|b|..];
  }

  /** Renderings of registrations that fit. */
  ghost predicate AllFit(shape: Shape, s: seq<string>) {
    forall i :: 0 <= i < |s| ==> IsRendering(shape, s[i])
  }

  ghost predicate IsRendering(shape: Shape, x: string) {
    exists d :: Fits(shape, d) && FullString(d) == x
  }

  lemma RenderedFits(shape: Shape, list: seq<DeviceRegistration>)
    requires Renderable(shape, list)
    ensures AllFit(shape, Sort(Rendered(list)))
  {
    var s := Sort(Rendered(list));
    SortSorts(Rendered(list));
    SameElements(s, Rendered(list));
    forall i | 0 <= i < |s| ensures IsRendering(shape, s[i]) {
      assert s[i] in Elements(s);
      var j :| 0 <= j < |list| && Rendered(list)[j] == s[i];
      assert list[j] in list && FullString(list[j]) == s[i];
    }
  }

  /** Joined renderings can be taken apart in one way only. */
  lemma JoinIsInjective(shape: Shape, s: seq<string>, t: seq<string>)
    requires AllFit(shape, s) && AllFit(shape, t) && s != [] && t != [] && Join(s, ',') == Join(t, ',')
    ensures s == t
  {
    match shape
    case NoDash => JoinFromRight(s, t);
    case IdLength(n) => JoinFromLeft(n, s, t);
  }

  // From the right: the port ends at the last dash, the IP at the one before, the ID at a comma.

  /** What precedes the last piece of a join. */
  function Lead(init: seq<string>): (lead: string)
    ensures lead == "" || lead[|lead| - 1] == ','
    ensures lead == "" <==> init == []
  {
    if init == [] then "" else Join(init, ',') + ","
  }

  lemma LastPiece(init: seq<string>, last: string)
    ensures Join(init + [last], ',') == Lead(init) + last
  {
    if init == [] {
      assert init + [last] == [last];
    } else {
      JoinAppend(init, last, ',');
    }
  }

  lemma ByteBehind(a: string, x: string, k: nat)
    requires |a| <= k < |a + x|
    ensures (a + x)[k] in x
  {
    assert (a + x)[k] == x[k - |a|];
  }

  lemma CutLead(a: string, x: string, b: string, y: string)
    requires a + x == b + y && ',' !in x && ',' !in y
    requires (a == "" || a[|a| - 1] == ',') && (b == "" || b[|b| - 1] == ',')
    ensures x == y && a == b
  {
    if |a| < |b| {
      ByteBehind(a, x, |b| - 1);
    } else if |b| < |a| {
      ByteBehind(b, y, |a| - 1);
    } else {
      CutAtLength(a, x, b, y);
    }
  }

  lemma CutLastRendering(a: string, d: DeviceRegistration, b: string, e: DeviceRegistration)
    requires Fits(NoDash, d) && Fits(NoDash, e) && a + FullString(d) == b + FullString(e)
    requires (a == "" || a[|a| - 1] == ',') && (b == "" || b[|b| - 1] == ',')
    ensures d == e && a == b
  {
    PrintedBytes(d.port);
    PrintedBytes(e.port);
    Regroup(a, d);
    Regroup(b, e);
    CutAtLast(a + d.id + "-" + d.ip, Itoa(d.port), b + e.id + "-" + e.ip, Itoa(e.port), '-');
    DigitsInjective(d.port, e.port);
    CutAtLast(a + d.id, d.ip, b + e.id, e.ip, '-');
    CutLead(a, d.id, b, e.id);
  }

  lemma Regroup(a: string, d: DeviceRegistration)
    ensures a + FullString(d) == (a + d.id + "-" + d.ip) + "-" + Itoa(d.port)
  {
  }

  lemma SameLastPiece(p: seq<string>, x: string, q: seq<string>, y: string)
    requires IsRendering(NoDash, x) && IsRendering(NoDash, y) && Join(p + [x], ',') == Join(q + [y], ',')
    ensures x == y && (p == [] <==> q == []) && (p != [] ==> Join(p, ',') == Join(q, ','))
  {
    var d :| Fits(NoDash, d) && FullString(d) == x;
    var e :| Fits(NoDash, e) && FullString(e) == y;
    LastPiece(p, x);
    LastPiece(q, y);
    CutLastRendering(Lead(p), d, Lead(q), e);
    if p != [] {
      SameLead(p, q);
    }
  }

  lemma InitAndLast(s: seq<string>)
    requires s != []
    ensures s == s[..|s| - 1] + [s[|s| - 1]]
  {
  }

  lemma {:induction false} JoinFromRight(s: seq<string>, t: seq<string>)
    requires AllFit(NoDash, s) && AllFit(NoDash, t) && s != [] && t != [] && Join(s, ',') == Join(t, ',')
    ensures s == t
  {
    var p, x := s[..|s| - 1], s[|s| - 1];
    var q, y := t[..|t| - 1], t[|t| - 1];
    InitAndLast(s);
    InitAndLast(t);
    SameLastPiece(p, x, q, y);
    if p != [] {
      JoinFromRight(p, q);
    }
  }

  lemma SameLead(p: seq<string>, q: seq<string>)
    requires p != [] && q != [] && Lead(p) == Lead(q)
    ensures Join(p, ',') == Join(q, ',')
  {
    assert Join(p, ',') == Lead(p)[..|Lead(p)| - 1] && Join(q, ',') == Lead(q)[..|Lead(q)| - 1];
  }

  // From the left: the ID ends after n bytes, IP and port at the next comma.

  /** What follows the first piece of a join. */
  function Trail(rest: seq<string>): (trail: string)
    ensures trail == "" || trail[0] == ','
    ensures trail == "" <==> rest == []
  {
    if rest == [] then "" else "," + Join(rest, ',')
  }

  lemma CutTrail(x: string, a: string, y: string, b: string)
    requires x + a == y + b && ',' !in x && ',' !in y
    requires (a == "" || a[0] == ',') && (b == "" || b[0] == ',')
    ensures x == y && a == b
  {
    if |x| < |y| {
      ByteBefore(y, b, x, a);
    } else if |y| < |x| {
      ByteBefore(x, a, y, b);
    } else {
      CutAtLength(x, a, y, b);
    }
  }

  lemma ByteBefore(x: string, a: string, y: string, b: string)
    requires x + a == y + b && |y| < |x|
    ensures b != "" && b[0] in x
  {
    assert (y + b)[|y|] == (x + a)[|y|] == x[|y|];
  }

  lemma CutFirstRendering(n: nat, d: DeviceRegistration, a: string, e: DeviceRegistration, b: string)
    requires Fits(IdLength(n), d) && Fits(IdLength(n), e) && FullString(d) + a == FullString(e) + b
    requires (a == "" || a[0] == ',') && (b == "" || b[0] == ',')
    ensures FullString(d) == FullString(e) && a == b
  {
    PrintedBytes(d.port);
    PrintedBytes(e.port);
    var x, y := "-" + d.ip + "-" + Itoa(d.port), "-" + e.ip + "-" + Itoa(e.port);
    RegroupId(d, a);
    RegroupId(e, b);
    CutAtLength(d.id, x + a, e.id, y + b);
    CutTrail(x, a, y, b);
    CutAtLength(FullString(d), a, FullString(e), b);
  }

  lemma RegroupId(d: DeviceRegistration, a: string)
    ensures FullString(d) + a == d.id + (("-" + d.ip + "-" + Itoa(d.port)) + a)
  {
  }

  lemma {:induction false} JoinFromLeft(n: nat, s: seq<string>, t: seq<string>)
    requires AllFit(IdLength(n), s) && AllFit(IdLength(n), t) && s != [] && t != [] && Join(s, ',') == Join(t, ',')
    ensures s == t
  {
    var p, q := s[1..], t[1..];
    assert s == [s[0]] + p && t == [t[0]] + q;
    assert IsRendering(IdLength(n), s[0]) && IsRendering(IdLength(n), t[0]);
    var d :| Fits(IdLength(n), d) && FullString(d) == s[0];
    var e :| Fits(IdLength(n), e) && FullString(e) == t[0];
    FirstPiece(s);
    FirstPiece(t);
    CutFirstRendering(n, d, Trail(p), e, Trail(q));
    if p != [] {
      SameTrail(p, q);
      JoinFromLeft(n, p, q);
    }
  }

  lemma FirstPiece(s: seq<string>)
    requires s != []
    ensures Join(s, ',') == s[0] + Trail(s[1..])
  {
  }

  lemma SameTrail(p: seq<string>, q: seq<string>)
    requires p != [] && q != [] && Trail(p) == Trail(q)
    ensures Join(p, ',') == Join(q, ',')
  {
    assert Join(p, ',') == Trail(p)[1..] && Join(q, ',') == Trail(q)[1..];
  }

  /** A registration occurs as often as its string. */
  lemma {:induction false} RenderedCount(shape: Shape, list: seq<DeviceRegistration>, d: DeviceRegistration)
    requires Renderable(shape, list) && Fits(shape, d)
    ensures multiset(Rendered(list))[FullString(d)] == multiset(list)[d]
  {
    if list != [] {
      assert list == [list[0]] + list[1..];
      assert Rendered(list) == [FullString(list[0])] + Rendered(list[1..]);
      RenderedCount(shape, list[1..], d);
      assert list[0] in list;
      if FullString(list[0]) == FullString(d) {
        FullStringInjective(shape, list[0], d);
      }
    }
  }

  /** The strings of a list are counted by the registrations behind them. */
  lemma RenderedPermutation(shape: Shape, a: seq<DeviceRegistration>, b: seq<DeviceRegistration>)
    requires Renderable(shape, a) && Renderable(shape, b) && multiset(a) == multiset(b)
    ensures multiset(Rendered(a)) == multiset(Rendered(b))
  {
    forall s ensures multiset(Rendered(a))[s] == multiset(Rendered(b))[s] {
      if s in Rendered(a) {
        SameCount(shape, a, b, s);
      } else if s in Rendered(b) {
        SameCount(shape, b, a, s);
      }
    }
  }

  lemma SameCount(shape: Shape, a: seq<DeviceRegistration>, b: seq<DeviceRegistration>, s: string)
    requires Renderable(shape, a) && Renderable(shape, b) && multiset(a) == multiset(b) && s in Rendered(a)
    ensures multiset(Rendered(a))[s] == multiset(Rendered(b))[s]
  {
    var i :| 0 <= i < |a| && Rendered(a)[i] == s;
    assert a[i] in a;
    RenderedCount(shape, a, a[i]);
    RenderedCount(shape, b, a[i]);
  }

  /** Change detection is exact: two device lists have the same string if and only if they hold the
      same registrations, each equally often, in whatever order. */
  lemma ChangeDetectionIsExact(shape: Shape, a: seq<DeviceRegistration>, b: seq<DeviceRegistration>)
    requires Renderable(shape, a) && Renderable(shape, b)
    ensures ListString(a) == ListString(b) <==> multiset(a) == multiset(b)
  {
    if multiset(a) == multiset(b) {
      assert |multiset(a)| == |a| && |multiset(b)| == |b|;
      RenderedPermutation(shape, a, b);
      SortPermutation(Rendered(a), Rendered(b));
    }
    if ListString(a) == ListString(b) {
      SameStringSameRendering(shape, a, b);
      forall d: DeviceRegistration ensures multiset(a)[d] == multiset(b)[d] {
        if d in a || d in b {
          RenderedCount(shape, a, d);
          RenderedCount(shape, b, d);
        }
      }
      assert multiset(a) == multiset(b);
    }
  }

  lemma SameStringSameRendering(shape: Shape, a: seq<DeviceRegistration>, b: seq<DeviceRegistration>)
    requires Renderable(shape, a) && Renderable(shape, b) && ListString(a) == ListString(b)
    ensures multiset(Rendered(a)) == multiset(Rendered(b))
  {
    assert a == [] <==> b == [];
    if a != [] {
      var s, t := Sort(Rendered(a)), Sort(Rendered(b));
      SortSorts(Rendered(a));
      SortSorts(Rendered(b));
      RenderedFits(shape, a);
      RenderedFits(shape, b);
      assert Join(s, ',') == ListString(a)[1..|ListString(a)| - 1];
      assert Join(t, ',') == ListString(b)[1..|ListString(b)| - 1];
      assert |s| == |multiset(s)| && |t| == |multiset(t)|;
      assert |multiset(s)| == |multiset(Rendered(a))| && |multiset(t)| == |multiset(Rendered(b))|;
      JoinIsInjective(shape, s, t);
    }
  }

  // Each condition is needed.

  lemma OneLooksLikeTwo(one: DeviceRegistration, x: DeviceRegistration, y: DeviceRegistration)
    requires LessEq(FullString(x), FullString(y)) && FullString(one) == FullString(x) + "," + FullString(y)
    ensures ListString([one]) == ListString([x, y])
  {
    var strings := [FullString(x), FullString(y)];
    assert Rendered([x, y]) == strings;
    assert Rendered([one]) == [FullString(one)];
    SortSorts(strings);
    SortedUnique(strings, Sort(strings));
    SortSorts([FullString(one)]);
    SortedUnique([FullString(one)], Sort([FullString(one)]));
    assert strings[1..] == [FullString(y)];
    assert Join(strings, ',') == FullString(one);
  }

  /** A comma in an ID makes one registration look like two. */
  lemma CommaCollision(x: DeviceRegistration, y: DeviceRegistration)
    requires LessEq(FullString(x), FullString(y))
    ensures ListString([y.(id := FullString(x) + "," + y.id)]) == ListString([x, y])
  {
    var one := y.(id := FullString(x) + "," + y.id);
    assert FullString(one) == FullString(x) + "," + FullString(y);
    OneLooksLikeTwo(one, x, y);
  }

  /** So does one in an IP with dashes, even if all IDs have the same length. */
  lemma CommaInIpCollision(x: DeviceRegistration, y: DeviceRegistration)
    requires LessEq(FullString(x), FullString(y))
    ensures ListString([DeviceRegistration(x.id, x.ip + "-" + Itoa(x.port) + "," + y.id + "-" + y.ip, y.port)])
         == ListString([x, y])
  {
    var one := DeviceRegistration(x.id, x.ip + "-" + Itoa(x.port) + "," + y.id + "-" + y.ip, y.port);
    assert FullString(one) == FullString(x) + "," + FullString(y);
    OneLooksLikeTwo(one, x, y);
  }

  /** If IDs differ in length a dash in an IP can be moved to the ID. */
  lemma DashCollision(id: string, ip: string, rest: string, port: int)
    ensures FullString(DeviceRegistration(id + "-" + ip, rest, port))
         == FullString(DeviceRegistration(id, ip + "-" + rest, port))
  {
    assert (id + "-" + ip) + "-" + rest == id + "-" + (ip + "-" + rest);
  }

  /** The sign of a negative port can be taken for a separator, or for a dash of the IP. */
  lemma NegativePortCollision(id: string, ip: string, port: int)
    requires port > 0
    ensures FullString(DeviceRegistration(id + "-" + ip, "", port)) == FullString(DeviceRegistration(id, ip, -port))
    ensures FullString(DeviceRegistration(id, ip + "-", port)) == FullString(DeviceRegistration(id, ip, -port))
  {
    var digits := Digits(port);
    assert (id + "-" + ip) + "-" + "" + "-" + digits == id + "-" + ip + "-" + ("-" + digits);
    assert id + "-" + (ip + "-") + "-" + digits == id + "-" + ip + "-" + ("-" + digits);
  }

  // ---------------------------------------------------------------- announced addresses

  /** net.JoinHostPort of the Go version the program is built with. */
  function JoinHostPort(host: string, port: string): string {
    if ':' in host || '%' in host then "[" + host + "]:" + port else host + ":" + port
  }

  /** Both backends' parser of an announced address; None is the error return. */
  function ParseAddress(s: string): Option<DeviceRegistration> {
    var parts := Split(s, ':');
    if |parts| != 2 then None
    else
      match Atoi(parts[1])
      case None => None
      case Some(port) => Some(DeviceRegistration("", parts[0], port))
  }

  lemma {:induction false} SplitCount(a: string, b: string, sep: char)
    ensures |Split(a + [sep] + b, sep)| == |Split(a, sep)| + |Split(b, sep)|
  {
    var s := a + [sep] + b;
    if a == "" {
      assert s[1..] == b;
    } else {
      SplitCount(a[1..], b, sep);
      assert s[1..] == a[1..] + [sep] + b;
    }
  }

  lemma SplitHasSeparator(s: string, sep: char)
    requires sep in s
    ensures |Split(s, sep)| >= 2
  {
    var i :| 0 <= i < |s| && s[i] == sep;
    assert s == s[..i] + [sep] + s[i + 1..];
    SplitCount(s[..i], s[i + 1..], sep);
  }

  lemma PlainAddress(host: string, port: int)
    requires ':' !in host && MIN_INT <= port <= MAX_INT
    ensures ParseAddress(host + ":" + Itoa(port)) == Some(DeviceRegistration("", host, port))
  {
    PrintedBytes(port);
    ItoaAtoi(port);
    SplitAppend(host, ':', Itoa(port));
    SplitPiece(Itoa(port), ':');
    assert host + ":" + Itoa(port) == host + [':'] + Itoa(port);
  }

  /** What every announced address parses to. The address survives exactly when the host holds
      neither a colon nor a percent sign: a colon makes the parsers reject it, a percent sign alone
      leaves brackets around the host. */
  lemma AnnouncedAddress(host: string, port: int)
    requires MIN_INT <= port <= MAX_INT
    ensures var parsed := ParseAddress(JoinHostPort(host, Itoa(port)));
            && (parsed == Some(DeviceRegistration("", host, port)) <==> ':' !in host && '%' !in host)
            && (parsed == None <==> ':' in host)
            && (':' !in host && '%' in host ==> parsed == Some(DeviceRegistration("", "[" + host + "]", port)))
  {
    if ':' in host {
      var bracketed := "[" + host + "]";
      var i :| 0 <= i < |host| && host[i] == ':';
      assert bracketed[i + 1] == ':';
      SplitHasSeparator(bracketed, ':');
      SplitCount(bracketed, Itoa(port), ':');
      assert "[" + host + "]:" + Itoa(port) == bracketed + [':'] + Itoa(port);
    } else if '%' in host {
      PlainAddress("[" + host + "]", port);
      assert "[" + host + "]:" + Itoa(port) == "[" + host + "]" + ":" + Itoa(port);
      assert |"[" + host + "]"| != |host|;
    } else {
      PlainAddress(host, port);
    }
  }
}
