/** The cookie jar (internal/auth/cookiejar): an index of cookies by (name, domain, path),
    with the prefix and public-suffix rules on the way in and RFC 6265 matching on the way
    out. The embedded public-suffix table is a parameter of the jar. */
module CookieJar {
  import opened Text
  import Ordering

  /** The fields of net/http.Cookie the jar reads; `expires` is None for the zero time. */
  datatype HttpCookie = HttpCookie(
    name: string, value: string, path: string, domain: string,
    expires: Option<int>, maxAge: int, secure: bool, httpOnly: bool, sameSite: int)

  datatype Cookie = Cookie(
    name: string, value: string, domain: string, path: string,
    expires: Option<int>, maxAge: int, secure: bool, httpOnly: bool, sameSite: bool, hostOnly: bool)

  datatype Url = Url(scheme: string, hostname: string, path: string)

  datatype Error = PublicSuffix | InsecurePrefix | HostPrefix

  const LAX := 2

  // ----- cookie.go, publicsuffix.go

  function Identity(c: Cookie): string {
    c.name + "\0" + ToLower(c.domain) + "\0" + c.path
  }

  predicate IsExpired(c: Cookie, now: int) {
    c.expires.Some? && c.expires.value <= now
  }

  function StripDot(d: string): string {
    if d != "" && d[0] == '.' then d[1..] else d
  }

  function TrimDots(d: string): string {
    if d != "" && d[|d| - 1] == '.' then TrimDots(d[..|d| - 1]) else d
  }

  function AsciiLower(c: char): char { if 'A' <= c <= 'Z' then c + 32 as char else c }

  function AsciiLowerAll(s: string): (r: string)
    ensures |r| == |s| && forall i :: 0 <= i < |s| ==> r[i] == AsciiLower(s[i])
  {
    seq(|s|, i requires 0 <= i < |s| => AsciiLower(s[i]))
  }

  predicate IsPublicSuffix(domain: string, suffixes: set<string>) {
    var d := TrimDots(StripDot(domain));
    d != "" && AsciiLowerAll(d) in suffixes
  }

  method CheckPublicSuffix(domain: string, suffixes: set<string>) returns (listed: bool)
    ensures listed == IsPublicSuffix(domain, suffixes)
  {
    if domain == "" {
      return false;
    }
    var d := StripDot(domain);
    while |d| > 0 && d[|d| - 1] == '.'
      invariant TrimDots(d) == TrimDots(StripDot(domain))
    {
      d := d[..|d| - 1];
    }
    if d == "" {
      return false;
    }
    var lower := "";
    for i := 0 to |d|
      invariant |lower| == i && forall k :: 0 <= k < i ==> lower[k] == AsciiLower(d[k])
    {
      var c := d[i];
      if 'A' <= c <= 'Z' {
        c := c + 32 as char;
      }
      lower := lower + [c];
    }
    assert lower == AsciiLowerAll(d);
    return lower in suffixes;
  }

  // ----- jar.go: the way in

  function FromStdlib(c: HttpCookie): Cookie {
    Cookie(c.name, c.value, StripDot(c.domain), if c.path == "" then "/" else c.path,
           c.expires, c.maxAge, c.secure, c.httpOnly, c.sameSite > 0, c.domain == "")
  }

  function ToStdlib(c: Cookie): HttpCookie {
    HttpCookie(c.name, c.value, c.path, if c.domain != "" then "." + c.domain else "",
               c.expires, c.maxAge, c.secure, c.httpOnly, if c.sameSite then LAX else 0)
  }

  predicate SecurePrefix(name: string) { "__Secure-" <= name }

  predicate HostPrefixed(name: string) { "__Host-" <= name }

  /** validateStdlibCookie: on success, whether the cookie is host-only. */
  function Validate(c: HttpCookie, u: Url, suffixes: set<string>): Result<bool, Error> {
    var domain := StripDot(c.domain);
    if c.domain != "" && IsPublicSuffix(domain, suffixes) then Err(PublicSuffix)
    else if !SecurePrefix(c.name) && !HostPrefixed(c.name) then Ok(domain == "")
    else if !c.secure || u.scheme != "https" then Err(InsecurePrefix)
    else if HostPrefixed(c.name) && (c.domain != "" || c.path != "/") then Err(HostPrefix)
    else Ok(domain == "")
  }

  /** The entry one Set-Cookie leads to, if it is stored at all. */
  function Accept(c: HttpCookie, u: Url, now: int, suffixes: set<string>): Option<Cookie> {
    var v := Validate(c, u, suffixes);
    if v.Err? then None
    else
      var raw := FromStdlib(c);
      var ours := if v.value then raw.(hostOnly := true, domain := ToLower(u.hostname)) else raw.(hostOnly := false);
      if ours.maxAge < 0 || IsExpired(ours, now) then None else Some(ours)
  }

  type Entries = map<string, Cookie>

  function Put(entries: Entries, c: Cookie): Entries { entries[Identity(c) := c] }

  function StoreOne(entries: Entries, u: Url, c: Option<HttpCookie>, now: int, suffixes: set<string>): Entries {
    if c.None? then entries
    else
      var a := Accept(c.value, u, now, suffixes);
      if a.None? then entries else Put(entries, a.value)
  }

  /** One SetCookies call; a nil cookie is None. */
  function Store(entries: Entries, u: Url, cookies: seq<Option<HttpCookie>>, now: int, suffixes: set<string>): Entries
    decreases |cookies|
  {
    if cookies == [] then entries
    else
      var n := |cookies| - 1;
      StoreOne(Store(entries, u, cookies[..n], now, suffixes), u, cookies[n], now, suffixes)
  }

  // ----- jar.go: the way out

  datatype Query = Query(host: string, path: string, https: bool, now: int)

  function QueryOf(u: Url, now: int): Query {
    Query(ToLower(u.hostname), if u.path == "" || u.path[0] != '/' then "/" else u.path, u.scheme == "https", now)
  }

  predicate HasSuffix(s: string, t: string) { |t| <= |s| && s[|s| - |t|..] == t }

  predicate DomainMatch(c: Cookie, host: string) {
    && c.domain != ""
    && (c.domain == host || (!c.hostOnly && HasSuffix(host, "." + c.domain)))
  }

  predicate PathMatch(cookiePath: string, reqPath: string) {
    var p := if cookiePath == "" then "/" else cookiePath;
    && p <= reqPath
    && (|reqPath| == |p| || p[|p| - 1] == '/' || reqPath[|p|] == '/')
  }

  predicate Eligible(c: Cookie, q: Query) {
    && !IsExpired(c, q.now)
    && (c.secure ==> q.https)
    && DomainMatch(c, q.host)
    && PathMatch(c.path, q.path)
  }

  /** The eligible entries called `name`, in iteration order. */
  function Candidates(entries: Entries, order: seq<string>, name: string, q: Query): seq<Cookie>
    requires forall k :: k in order ==> k in entries
  {
    if order == [] then []
    else
      var c := entries[order[|order| - 1]];
      Candidates(entries, order[..|order| - 1], name, q) + if Eligible(c, q) && c.name == name then [c] else []
  }

  /** The first longest-path candidate among those that match the host exactly, or among
      the others. */
  function Best(cands: seq<Cookie>, host: string, exact: bool): Option<Cookie> {
    if cands == [] then None
    else
      var c := cands[|cands| - 1];
      var b := Best(cands[..|cands| - 1], host, exact);
      if (c.domain == host) == exact && (b.None? || |c.path| > |b.value.path|) then Some(c) else b
  }

  function Choose(cands: seq<Cookie>, host: string): Option<Cookie> {
    var e := Best(cands, host, true);
    if e.Some? then e else Best(cands, host, false)
  }

  method SelectCookie(cands: seq<Cookie>, host: string) returns (w: Option<Cookie>)
    ensures w == Choose(cands, host)
  {
    var exact, dot := None, None;
    for i := 0 to |cands|
      invariant exact == Best(cands[..i], host, true) && dot == Best(cands[..i], host, false)
    {
      var c := cands[i];
      assert cands[..i + 1][..i] == cands[..i];
      if c.domain == host {
        if exact.None? || |c.path| > |exact.value.path| {
          exact := Some(c);
        }
      } else {
        if dot.None? || |c.path| > |dot.value.path| {
          dot := Some(c);
        }
      }
    }
    assert cands[..|cands|] == cands;
    return if exact.Some? then exact else dot;
  }

  /** The comparator Cookies sorts with: longer paths first, then names. */
  predicate SendBefore(a: HttpCookie, b: HttpCookie) {
    if a.path != b.path then |a.path| > |b.path| else LexLess(a.name, b.name)
  }

  predicate Distinct<T(==)>(s: seq<T>) { forall i, j :: 0 <= i < j < |s| ==> s[i] != s[j] }

  ghost predicate IsOrder(order: seq<string>, entries: Entries) {
    Distinct(order) && Ordering.Elements(order) == entries.Keys
  }

  function Names(entries: Entries, q: Query): set<string> {
    set k | k in entries && Eligible(entries[k], q) :: entries[k].name
  }

  /** For each name with an eligible entry, the one entry that is sent. */
  ghost function Winners(entries: Entries, order: seq<string>, q: Query): map<string, Cookie>
    requires IsOrder(order, entries)
  {
    OrderCovers(entries, order);
    map n | n in Names(entries, q) && Choose(Candidates(entries, order, n, q), q.host).Some?
      :: Choose(Candidates(entries, order, n, q), q.host).value
  }

  lemma OrderCovers(entries: Entries, order: seq<string>)
    requires IsOrder(order, entries)
    ensures forall k :: k in order <==> k in entries
  {
    assert forall k :: k in order <==> k in Ordering.Elements(order);
  }

  ghost function Sent(w: map<string, Cookie>): set<HttpCookie> {
    set n | n in w :: ToStdlib(w[n])
  }

  /** What Cookies returns when the entry map is iterated in `order`. */
  ghost predicate IsAnswer(entries: Entries, order: seq<string>, q: Query, out: seq<HttpCookie>)
    requires IsOrder(order, entries)
  {
    && Ordering.Elements(out) == Sent(Winners(entries, order, q))
    && Ordering.StrictlySorted(SendBefore, out)
  }

  // ----- the jar invariant

  ghost predicate ValidJar(entries: Entries) {
    forall k :: k in entries ==> k == Identity(entries[k]) && entries[k].path != ""
  }

  lemma {:induction false} StoreKeepsValid(entries: Entries, u: Url, cookies: seq<Option<HttpCookie>>, now: int, suffixes: set<string>)
    requires ValidJar(entries)
    ensures ValidJar(Store(entries, u, cookies, now, suffixes))
    decreases |cookies|
  {
    if cookies != [] {
      StoreKeepsValid(entries, u, cookies[..|cookies| - 1], now, suffixes);
    }
  }

  // ----- selection

  lemma {:induction false} CandidatesAre(entries: Entries, order: seq<string>, name: string, q: Query)
    requires forall k :: k in order ==> k in entries
    ensures forall c :: c in Candidates(entries, order, name, q) <==>
              exists k :: k in order && entries[k] == c && Eligible(c, q) && c.name == name
    decreases |order|
  {
    if order != [] {
      var n := |order| - 1;
      CandidatesAre(entries, order[..n], name, q);
      assert order == order[..n] + [order[n]];
      assert forall k :: k in order <==> k in order[..n] || k == order[n];
    }
  }

  /** No candidate of the same kind has a longer path. */
  predicate Longest(c: Cookie, cands: seq<Cookie>, host: string, exact: bool) {
    && c in cands && (c.domain == host) == exact
    && forall d :: d in cands && (d.domain == host) == exact ==> |d.path| <= |c.path|
  }

  lemma {:induction false} BestIsLongest(cands: seq<Cookie>, host: string, exact: bool)
    ensures var b := Best(cands, host, exact);
            && (b.Some? ==> Longest(b.value, cands, host, exact))
            && (b.None? ==> forall d :: d in cands ==> (d.domain == host) != exact)
    decreases |cands|
  {
    if cands != [] {
      var n := |cands| - 1;
      BestIsLongest(cands[..n], host, exact);
      assert cands == cands[..n] + [cands[n]];
    }
  }

  /** selectCookie: an exact-host candidate beats every other; within a kind the longest
      path wins; nothing is chosen only from nothing. */
  lemma ChooseIsBest(cands: seq<Cookie>, host: string)
    ensures var w := Choose(cands, host);
            && (w.None? <==> cands == [])
            && (w.Some? ==>
                  && w.value in cands
                  && ((exists d :: d in cands && d.domain == host) ==> Longest(w.value, cands, host, true))
                  && ((forall d :: d in cands ==> d.domain != host) ==> Longest(w.value, cands, host, false)))
  {
    BestIsLongest(cands, host, true);
    BestIsLongest(cands, host, false);
    if cands != [] {
      assert cands[0] in cands;
    }
  }

  lemma WinnersAre(entries: Entries, order: seq<string>, q: Query)
    requires IsOrder(order, entries)
    ensures Winners(entries, order, q).Keys == Names(entries, q)
    ensures forall n :: n in Names(entries, q) ==>
              var w := Winners(entries, order, q)[n];
              w.name == n && Eligible(w, q) && exists k :: k in entries && entries[k] == w
  {
    OrderCovers(entries, order);
    forall n | n in Names(entries, q)
      ensures var w := Choose(Candidates(entries, order, n, q), q.host);
              w.Some? && w.value.name == n && Eligible(w.value, q) && exists k :: k in entries && entries[k] == w.value
    {
      var cands := Candidates(entries, order, n, q);
      CandidatesAre(entries, order, n, q);
      ChooseIsBest(cands, q.host);
      var k :| k in entries && Eligible(entries[k], q) && entries[k].name == n;
      assert entries[k] in cands;
    }
  }

  lemma EqualLengthPathsAgree(a: string, b: string, req: string)
    requires a != "" && b != "" && |a| == |b| && PathMatch(a, req) && PathMatch(b, req)
    ensures a == b
  {
  }

  /** On the cookies one request selects, the comparator is a strict total order. */
  lemma SendOrderIsTotal(entries: Entries, order: seq<string>, q: Query)
    requires IsOrder(order, entries) && ValidJar(entries)
    ensures Ordering.StrictTotalOn(SendBefore, Sent(Winners(entries, order, q)))
  {
    var w := Winners(entries, order, q);
    var s := Sent(w);
    WinnersAre(entries, order, q);
    forall x | x in s ensures x.name in w && x == ToStdlib(w[x.name]) && x.path != "" && PathMatch(x.path, q.path) {
    }
    forall x, y | x in s && y in s && |x.path| == |y.path| ensures x.path == y.path {
      EqualLengthPathsAgree(x.path, y.path, q.path);
    }
    forall x | x in s ensures !SendBefore(x, x) {
      LexIrreflexive(x.name);
    }
    forall x, y | x in s && y in s && x != y ensures SendBefore(x, y) || SendBefore(y, x) {
      if x.path == y.path {
        LexTotal(x.name, y.name);
      }
    }
    forall x, y, z | x in s && y in s && z in s && SendBefore(x, y) && SendBefore(y, z) ensures SendBefore(x, z) {
      if x.path == y.path && y.path == z.path {
        LexTransitive(x.name, y.name, z.name);
      }
    }
  }

  /** For a fixed iteration order there is one answer, whatever the sort does. */
  lemma AnswerIsUnique(entries: Entries, order: seq<string>, q: Query, a: seq<HttpCookie>, b: seq<HttpCookie>)
    requires IsOrder(order, entries) && ValidJar(entries)
    requires IsAnswer(entries, order, q, a) && IsAnswer(entries, order, q, b)
    ensures a == b
  {
    SendOrderIsTotal(entries, order, q);
    Ordering.SortedIsUnique(SendBefore, a, b);
  }

  // ----- when the answer does not depend on map iteration order

  predicate Rival(entries: Entries, q: Query, name: string, k: string) {
    k in entries && Eligible(entries[k], q) && entries[k].name == name
  }

  /** `k` is a parent-domain entry that no entry of its name beats. */
  ghost predicate TopParent(entries: Entries, q: Query, name: string, k: string) {
    && Rival(entries, q, name, k)
    && forall j :: Rival(entries, q, name, j) ==>
         entries[j].domain != q.host && |entries[j].path| <= |entries[k].path|
  }

  /** Two parent-domain entries of one name share the longest path and nothing is stored
      for the host itself. */
  ghost predicate TiedParents(entries: Entries, q: Query) {
    exists name, j, k :: j != k && TopParent(entries, q, name, j) && TopParent(entries, q, name, k)
  }

  /** `k` is an entry stored for the host itself that no other such entry beats. */
  ghost predicate TopExact(entries: Entries, q: Query, name: string, k: string) {
    && Rival(entries, q, name, k) && entries[k].domain == q.host
    && forall j :: Rival(entries, q, name, j) && entries[j].domain == q.host ==> |entries[j].path| <= |entries[k].path|
  }

  ghost predicate HasExact(entries: Entries, q: Query, name: string) {
    exists j :: Rival(entries, q, name, j) && entries[j].domain == q.host
  }

  lemma CandidateKeys(entries: Entries, order: seq<string>, name: string, q: Query)
    requires IsOrder(order, entries)
    ensures forall x :: x in order <==> x in entries
    ensures forall j :: Rival(entries, q, name, j) ==> entries[j] in Candidates(entries, order, name, q)
    ensures forall c :: c in Candidates(entries, order, name, q) ==> exists k :: Rival(entries, q, name, k) && entries[k] == c
  {
    hide Eligible, Candidates;
    OrderCovers(entries, order);
    CandidatesAre(entries, order, name, q);
  }

  lemma ChosenKey(entries: Entries, order: seq<string>, name: string, q: Query) returns (k: string)
    requires IsOrder(order, entries) && name in Names(entries, q)
    ensures forall x :: x in order <==> x in entries
    ensures Rival(entries, q, name, k)
    ensures Choose(Candidates(entries, order, name, q), q.host) == Some(entries[k])
    ensures if HasExact(entries, q, name) then TopExact(entries, q, name, k) else TopParent(entries, q, name, k)
  {
    hide Eligible, Candidates, Choose, IsOrder;
    CandidateKeys(entries, order, name, q);
    var cands := Candidates(entries, order, name, q);
    ChooseIsBest(cands, q.host);
    NameHasRival(entries, q, name);
    k :| Rival(entries, q, name, k) && Some(entries[k]) == Choose(cands, q.host);
    if !HasExact(entries, q, name) {
      forall d | d in cands ensures d.domain != q.host {
        var j :| Rival(entries, q, name, j) && entries[j] == d;
      }
    }
  }

  lemma NameHasRival(entries: Entries, q: Query, name: string)
    ensures name in Names(entries, q) <==> exists k :: Rival(entries, q, name, k)
  {
    hide Eligible;
    if k :| Rival(entries, q, name, k) {
      assert k in entries && Eligible(entries[k], q);
    }
    if name in Names(entries, q) {
      var k :| k in entries && Eligible(entries[k], q) && entries[k].name == name;
      assert Rival(entries, q, name, k);
    }
  }

  /** The exact-host winner is unique: equally long matching paths are equal, so two such
      entries would have the same identity. */
  lemma SameIdentity(entries: Entries, q: Query, name: string, j: string, k: string)
    requires ValidJar(entries) && Rival(entries, q, name, j) && Rival(entries, q, name, k)
    requires |entries[j].path| == |entries[k].path|
    ensures entries[j].path == entries[k].path
    ensures ToLower(entries[j].domain) == ToLower(entries[k].domain) ==> j == k
  {
    EqualLengthPathsAgree(entries[j].path, entries[k].path, q.path);
  }

  lemma NotTied(entries: Entries, q: Query)
    requires !TiedParents(entries, q)
    ensures forall name, j, k :: TopParent(entries, q, name, j) && TopParent(entries, q, name, k) ==> j == k
  {
  }

  lemma UntiedMeansSame(entries: Entries, a: seq<string>, b: seq<string>, q: Query)
    requires IsOrder(a, entries) && IsOrder(b, entries) && ValidJar(entries) && !TiedParents(entries, q)
    ensures Winners(entries, a, q) == Winners(entries, b, q)
  {
    hide Eligible, Candidates, Choose, Names, ValidJar, IsOrder, TiedParents;
    WinnersAre(entries, a, q);
    WinnersAre(entries, b, q);
    NotTied(entries, q);
    forall n | n in Names(entries, q) ensures Winners(entries, a, q)[n] == Winners(entries, b, q)[n] {
      var j := ChosenKey(entries, a, n, q);
      var k := ChosenKey(entries, b, n, q);
      if HasExact(entries, q, n) {
        SameIdentity(entries, q, n, j, k);
      } else {
        assert TopParent(entries, q, n, j) && TopParent(entries, q, n, k);
      }
    }
  }

  /** An iteration order that visits `k` first. */
  lemma {:induction false} OrderFrom(keys: set<string>) returns (order: seq<string>)
    ensures Distinct(order) && Ordering.Elements(order) == keys
    decreases |keys|
  {
    if keys == {} {
      order := [];
    } else {
      var k :| k in keys;
      var rest := OrderFrom(keys - {k});
      order := [k] + rest;
      FirstAdded(k, rest);
    }
  }

  lemma FirstAdded(k: string, rest: seq<string>)
    requires Distinct(rest) && k !in Ordering.Elements(rest)
    ensures Distinct([k] + rest) && Ordering.Elements([k] + rest) == {k} + Ordering.Elements(rest)
  {
    assert forall i :: 0 <= i < |rest| ==> rest[i] in Ordering.Elements(rest);
    Ordering.InsertElements(rest, 0, k);
    assert rest[..0] + [k] + rest[0..] == [k] + rest;
  }

  lemma OrderStarting(entries: Entries, k: string) returns (order: seq<string>)
    requires k in entries
    ensures IsOrder(order, entries) && order != [] && order[0] == k
  {
    var rest := OrderFrom(entries.Keys - {k});
    order := [k] + rest;
    FirstAdded(k, rest);
  }

  /** A top parent visited first is the one chosen. */
  lemma FirstTopWins(entries: Entries, order: seq<string>, q: Query, name: string, k: string)
    requires IsOrder(order, entries) && order != [] && order[0] == k && TopParent(entries, q, name, k)
    ensures name in Winners(entries, order, q) && Winners(entries, order, q)[name] == entries[k]
  {
    WinnersAre(entries, order, q);
    OrderCovers(entries, order);
    PrefixKeepsFirst(entries, order, |order|, q, name, k);
    assert order[..|order|] == order;
    var cands := Candidates(entries, order, name, q);
    BestIsLongest(cands, q.host, true);
    CandidatesAre(entries, order, name, q);
    assert entries[k].name == name && name in Names(entries, q);
  }

  lemma {:induction false} PrefixKeepsFirst(entries: Entries, order: seq<string>, n: nat, q: Query, name: string, k: string)
    requires forall x :: x in order ==> x in entries
    requires 1 <= n <= |order| && order[0] == k && TopParent(entries, q, name, k)
    ensures forall x :: x in order[..n] ==> x in entries
    ensures Best(Candidates(entries, order[..n], name, q), q.host, false) == Some(entries[k])
  {
    hide Eligible, Best;
    assert forall x :: x in order[..n] ==> x in order;
    var p, c := order[..n], entries[order[n - 1]];
    assert p[..n - 1] == order[..n - 1];
    var before := Candidates(entries, order[..n - 1], name, q);
    if n == 1 {
      assert order[..0] == [] && before == [];
      BestOfNext([], entries[k], q.host);
    } else {
      PrefixKeepsFirst(entries, order, n - 1, q, name, k);
      if Eligible(c, q) && c.name == name {
        assert Rival(entries, q, name, order[n - 1]);
        BestOfNext(before, c, q.host);
      } else {
        assert before + [] == before;
      }
    }
  }

  lemma BestOfNext(before: seq<Cookie>, c: Cookie, host: string)
    requires c.domain != host
    ensures Best([], host, false) == None
    ensures var b := Best(before, host, false);
            Best(before + [c], host, false) == if b.None? || |c.path| > |b.value.path| then Some(c) else b
  {
    assert (before + [c])[..|before|] == before;
  }

  lemma StdlibKeepsDomain(a: Cookie, b: Cookie)
    requires a.domain != "" && b.domain != ""
    ensures ToStdlib(a).domain == ToStdlib(b).domain ==> a.domain == b.domain
  {
    assert ToStdlib(a).domain[1..] == a.domain && ToStdlib(b).domain[1..] == b.domain;
  }

  lemma SentUnder(entries: Entries, order: seq<string>, q: Query, name: string)
    requires IsOrder(order, entries) && name in Winners(entries, order, q)
    ensures forall y :: y in Sent(Winners(entries, order, q)) && y.name == name ==> y == ToStdlib(Winners(entries, order, q)[name])
  {
    WinnersAre(entries, order, q);
  }

  /** Cookies does not depend on map iteration order exactly when no name has two
      parent-domain entries tied for the longest path and no entry for the host itself.
      The source's comment promises that the more specific domain wins; selectCookie does
      not compare parent domains, and a tie is where that shows. */
  lemma OrderIndependentIff(entries: Entries, q: Query)
    requires ValidJar(entries)
    ensures (forall a, b :: IsOrder(a, entries) && IsOrder(b, entries) ==>
               Sent(Winners(entries, a, q)) == Sent(Winners(entries, b, q)))
            <==> !TiedParents(entries, q)
  {
    if TiedParents(entries, q) {
      var name, j, k :| j != k && TopParent(entries, q, name, j) && TopParent(entries, q, name, k);
      var a := OrderStarting(entries, j);
      var b := OrderStarting(entries, k);
      FirstTopWins(entries, a, q, name, j);
      FirstTopWins(entries, b, q, name, k);
      SameIdentity(entries, q, name, j, k);
      var x := ToStdlib(entries[j]);
      assert x in Sent(Winners(entries, a, q));
      SentUnder(entries, b, q, name);
      StdlibKeepsDomain(entries[j], entries[k]);
    } else {
      forall a, b | IsOrder(a, entries) && IsOrder(b, entries)
        ensures Sent(Winners(entries, a, q)) == Sent(Winners(entries, b, q))
      {
        UntiedMeansSame(entries, a, b, q);
      }
    }
  }

  // ----- when the more specific domain is the one sent

  function Dots(s: string): nat {
    if s == "" then 0 else (if s[0] == '.' then 1 else 0) + Dots(s[1..])
  }

  lemma {:induction false} DotsConcat(a: string, b: string)
    ensures Dots(a + b) == Dots(a) + Dots(b)
    decreases |a|
  {
    if a == "" {
      assert a + b == b;
    } else {
      assert (a + b)[1..] == a[1..] + b;
      DotsConcat(a[1..], b);
    }
  }

  lemma ParentHasFewerDots(host: string, domain: string)
    requires HasSuffix(host, "." + domain)
    ensures Dots(domain) < Dots(host)
  {
    var from := |host| - |domain| - 1;
    assert host == host[..from] + ("." + domain);
    DotsConcat(host[..from], "." + domain);
    assert ("." + domain)[1..] == domain;
  }

  /** No rival's domain has more components. */
  ghost predicate MostSpecific(entries: Entries, q: Query, name: string, k: string) {
    && Rival(entries, q, name, k)
    && forall j :: Rival(entries, q, name, j) ==> Dots(entries[j].domain) <= Dots(entries[k].domain)
  }

  ghost predicate SendsMostSpecific(entries: Entries, order: seq<string>, q: Query, name: string)
    requires IsOrder(order, entries)
  {
    && name in Winners(entries, order, q)
    && exists k :: MostSpecific(entries, q, name, k) && entries[k] == Winners(entries, order, q)[name]
  }

  lemma ExactIsMostSpecific(entries: Entries, q: Query, name: string, k: string)
    requires Rival(entries, q, name, k) && entries[k].domain == q.host
    ensures MostSpecific(entries, q, name, k)
  {
    forall j | Rival(entries, q, name, j) ensures Dots(entries[j].domain) <= Dots(entries[k].domain) {
      if entries[j].domain != q.host {
        ParentHasFewerDots(q.host, entries[j].domain);
      }
    }
  }

  lemma WinnerKey(entries: Entries, order: seq<string>, q: Query, name: string) returns (k: string)
    requires IsOrder(order, entries) && name in Names(entries, q)
    ensures name in Winners(entries, order, q) && Rival(entries, q, name, k) && Winners(entries, order, q)[name] == entries[k]
    ensures if HasExact(entries, q, name) then TopExact(entries, q, name, k) else TopParent(entries, q, name, k)
  {
    hide Eligible, Candidates, Choose, Names, IsOrder, TopParent, TopExact, HasExact;
    WinnersAre(entries, order, q);
    k := ChosenKey(entries, order, name, q);
  }

  /** The promise that the most specific domain wins holds, whatever the iteration order,
      exactly when there is an entry for the host itself or every longest-path parent entry
      is a most specific one: a longer path beats a more specific domain, and between equal
      paths the domains are not compared. */
  lemma MostSpecificWinsIff(entries: Entries, q: Query, name: string)
    requires ValidJar(entries) && name in Names(entries, q)
    ensures (forall order :: IsOrder(order, entries) ==> SendsMostSpecific(entries, order, q, name))
       <==> HasExact(entries, q, name) || forall k :: TopParent(entries, q, name, k) ==> MostSpecific(entries, q, name, k)
  {
    hide Eligible, Winners, Names, IsOrder, ValidJar;
    if HasExact(entries, q, name) || forall k :: TopParent(entries, q, name, k) ==> MostSpecific(entries, q, name, k) {
      forall order | IsOrder(order, entries) ensures SendsMostSpecific(entries, order, q, name) {
        var k := WinnerKey(entries, order, q, name);
        if HasExact(entries, q, name) {
          ExactIsMostSpecific(entries, q, name, k);
        }
      }
    }
    if forall order :: IsOrder(order, entries) ==> SendsMostSpecific(entries, order, q, name) {
      forall k | TopParent(entries, q, name, k) ensures MostSpecific(entries, q, name, k) {
        var order := OrderStarting(entries, k);
        assert SendsMostSpecific(entries, order, q, name);
        FirstTopWins(entries, order, q, name, k);
      }
    }
  }

  // ----- runs of SetCookies

  datatype SetCall = SetCall(url: Option<Url>, cookies: seq<Option<HttpCookie>>, now: int)

  function Apply(entries: Entries, call: SetCall, suffixes: set<string>): Entries {
    if call.url.None? then entries else Store(entries, call.url.value, call.cookies, call.now, suffixes)
  }

  /** The jar after a history of calls, the latest last. */
  function After(history: seq<SetCall>, suffixes: set<string>): Entries {
    if history == [] then map[]
    else Apply(After(history[..|history| - 1], suffixes), history[|history| - 1], suffixes)
  }

  function AcceptedIn(u: Url, cookies: seq<Option<HttpCookie>>, now: int, suffixes: set<string>): seq<Cookie>
    decreases |cookies|
  {
    if cookies == [] then []
    else
      var last := cookies[|cookies| - 1];
      AcceptedIn(u, cookies[..|cookies| - 1], now, suffixes)
      + if last.Some? && Accept(last.value, u, now, suffixes).Some? then [Accept(last.value, u, now, suffixes).value] else []
  }

  /** Every accepted cookie of the history, in order. */
  function Accepted(history: seq<SetCall>, suffixes: set<string>): seq<Cookie> {
    if history == [] then []
    else
      var call := history[|history| - 1];
      Accepted(history[..|history| - 1], suffixes)
      + if call.url.None? then [] else AcceptedIn(call.url.value, call.cookies, call.now, suffixes)
  }

  /** `c` is the last of `log` with its identity. */
  ghost predicate LastWith(log: seq<Cookie>, k: string, c: Cookie) {
    exists i :: 0 <= i < |log| && log[i] == c && Identity(c) == k && forall j :: i < j < |log| ==> Identity(log[j]) != k
  }

  ghost predicate Indexes(entries: Entries, log: seq<Cookie>) {
    && (forall k :: k in entries ==> LastWith(log, k, entries[k]))
    && (forall c :: c in log ==> Identity(c) in entries)
  }

  lemma IndexesPut(entries: Entries, log: seq<Cookie>, c: Cookie)
    requires Indexes(entries, log)
    ensures Indexes(Put(entries, c), log + [c])
  {
    hide Identity;
    var after := log + [c];
    forall k | k in Put(entries, c) ensures LastWith(after, k, Put(entries, c)[k]) {
      if k == Identity(c) {
        assert after[|log|] == c;
      } else {
        var i :| 0 <= i < |log| && log[i] == entries[k] && Identity(entries[k]) == k
          && forall j :: i < j < |log| ==> Identity(log[j]) != k;
        assert after[i] == entries[k];
      }
    }
  }

  lemma {:induction false} IndexesStore(entries: Entries, log: seq<Cookie>, u: Url, cookies: seq<Option<HttpCookie>>, now: int, suffixes: set<string>)
    requires Indexes(entries, log)
    ensures Indexes(Store(entries, u, cookies, now, suffixes), log + AcceptedIn(u, cookies, now, suffixes))
    decreases |cookies|
  {
    hide Accept, Indexes, Put;
    if cookies == [] {
      assert log + [] == log;
    } else {
      var rest, last := cookies[..|cookies| - 1], cookies[|cookies| - 1];
      IndexesStore(entries, log, u, rest, now, suffixes);
      var acc := AcceptedIn(u, rest, now, suffixes);
      if last.Some? && Accept(last.value, u, now, suffixes).Some? {
        var c := Accept(last.value, u, now, suffixes).value;
        IndexesPut(Store(entries, u, rest, now, suffixes), log + acc, c);
        assert log + (acc + [c]) == log + acc + [c];
      } else {
        assert acc + [] == acc;
      }
    }
  }

  /** After any history of SetCookies calls the jar is the last-write-wins index of the
      accepted cookies: each key holds the last accepted cookie with that identity, no
      accepted identity is missing, and nothing else is stored. A rejected or expired
      Set-Cookie leaves the jar as it was. */
  lemma {:induction false} JarIsLastWriteWins(history: seq<SetCall>, suffixes: set<string>)
    ensures Indexes(After(history, suffixes), Accepted(history, suffixes))
    ensures ValidJar(After(history, suffixes))
    decreases |history|
  {
    hide Indexes, Store, AcceptedIn, ValidJar;
    if history == [] {
      EmptyJar();
    } else {
      var before, call := history[..|history| - 1], history[|history| - 1];
      JarIsLastWriteWins(before, suffixes);
      if call.url.Some? {
        IndexesStore(After(before, suffixes), Accepted(before, suffixes), call.url.value, call.cookies, call.now, suffixes);
        StoreKeepsValid(After(before, suffixes), call.url.value, call.cookies, call.now, suffixes);
      } else {
        assert Accepted(before, suffixes) + [] == Accepted(before, suffixes);
      }
    }
  }

  lemma EmptyJar()
    ensures Indexes(map[], []) && ValidJar(map[])
  {
  }

  predicate NulFree(s: string) { '\0' !in s }

  lemma NulSplit(a: string, x: string, b: string, y: string)
    requires NulFree(a) && NulFree(b) && a + "\0" + x == b + "\0" + y
    ensures a == b && x == y
  {
    var s, t := a + "\0" + x, b + "\0" + y;
    assert s[|a|] == '\0' && t[|b|] == '\0';
    assert forall i :: 0 <= i < |a| ==> s[i] == a[i];
    assert forall i :: 0 <= i < |b| ==> t[i] == b[i];
    assert |a| == |b|;
    assert a == s[..|a|] && b == t[..|b|];
    assert x == s[|a| + 1..] && y == t[|b| + 1..];
  }

  /** The storage key separates exactly the (name, lower-cased domain, path) triples, so
      cookies of one name on two hosts, or two paths, never collapse. */
  lemma IdentityIsInjective(a: Cookie, b: Cookie)
    requires NulFree(a.name) && NulFree(b.name) && NulFree(a.domain) && NulFree(b.domain)
    ensures Identity(a) == Identity(b) <==> a.name == b.name && ToLower(a.domain) == ToLower(b.domain) && a.path == b.path
  {
    if Identity(a) == Identity(b) {
      var da, db := ToLower(a.domain), ToLower(b.domain);
      assert NulFree(da) && NulFree(db);
      assert Identity(a) == a.name + "\0" + (da + "\0" + a.path);
      assert Identity(b) == b.name + "\0" + (db + "\0" + b.path);
      NulSplit(a.name, da + "\0" + a.path, b.name, db + "\0" + b.path);
      NulSplit(da, a.path, db, b.path);
    }
  }

  // ----- what a stored or returned cookie guarantees

  /** `ours` is what some accepted Set-Cookie of the history became. */
  ghost predicate CameFrom(history: seq<SetCall>, suffixes: set<string>, ours: Cookie, u: Url) {
    exists i, j :: 0 <= i < |history| && 0 <= j < |history[i].cookies|
      && history[i].url == Some(u) && history[i].cookies[j].Some?
      && Accept(history[i].cookies[j].value, u, history[i].now, suffixes) == Some(ours)
  }

  lemma {:induction false} AcceptedFrom(u: Url, cookies: seq<Option<HttpCookie>>, now: int, suffixes: set<string>, c: Cookie) returns (j: nat)
    requires c in AcceptedIn(u, cookies, now, suffixes)
    ensures j < |cookies| && cookies[j].Some? && Accept(cookies[j].value, u, now, suffixes) == Some(c)
    decreases |cookies|
  {
    hide Accept;
    var n := |cookies| - 1;
    if cookies[n].Some? && Accept(cookies[n].value, u, now, suffixes) == Some(c) {
      j := n;
    } else {
      j := AcceptedFrom(u, cookies[..n], now, suffixes, c);
    }
  }

  lemma {:induction false} AcceptedCameFrom(history: seq<SetCall>, suffixes: set<string>, c: Cookie)
    requires c in Accepted(history, suffixes)
    ensures exists u :: CameFrom(history, suffixes, c, u)
    decreases |history|
  {
    hide Accept, AcceptedIn;
    var n := |history| - 1;
    var call := history[n];
    if call.url.Some? && c in AcceptedIn(call.url.value, call.cookies, call.now, suffixes) {
      var j := AcceptedFrom(call.url.value, call.cookies, call.now, suffixes, c);
      assert CameFrom(history, suffixes, c, call.url.value);
    } else {
      AcceptedCameFrom(history[..n], suffixes, c);
      var u :| CameFrom(history[..n], suffixes, c, u);
      assert CameFrom(history, suffixes, c, u);
    }
  }

  lemma AcceptedPrefixRules(c: HttpCookie, u: Url, now: int, suffixes: set<string>)
    requires Accept(c, u, now, suffixes).Some?
    ensures var ours := Accept(c, u, now, suffixes).value;
            && ours.name == c.name && ours.value == c.value
            && !IsExpired(ours, now)
            && ("__Secure-" <= ours.name || "__Host-" <= ours.name ==> ours.secure && u.scheme == "https")
            && ("__Host-" <= ours.name ==> ours.hostOnly && ours.domain == ToLower(u.hostname) && ours.path == "/")
            && (c.domain == "" ==> ours.hostOnly && ours.domain == ToLower(u.hostname))
  {
  }

  /** Matching is documented to compare lower-cased names, but stored domains are not
      lower-cased: a cookie matches exactly when its lower-cased form does and it had no
      capitals to begin with. */
  lemma CaseMattersIff(c: Cookie, u: Url)
    ensures var host := ToLower(u.hostname);
            DomainMatch(c, host) <==> DomainMatch(c.(domain := ToLower(c.domain)), host) && ToLower(c.domain) == c.domain
  {
    var host := ToLower(u.hostname);
    ToLowerIdempotent(u.hostname);
    if HasSuffix(host, "." + c.domain) {
      SuffixIsLower(host, c.domain);
    }
  }

  lemma SuffixIsLower(host: string, d: string)
    requires ToLower(host) == host && HasSuffix(host, "." + d)
    ensures ToLower(d) == d
  {
    var from := |host| - |d|;
    assert ("." + d)[1..] == d && host[from..] == d;
    forall i | 0 <= i < |d| ensures ToLower(d)[i] == d[i] {
      assert d[i] == host[from + i] && ToLower(host)[from + i] == LowerChar(host[from + i]);
    }
  }

  const PLAIN := HttpCookie("n", "v", "/", "", None, 0, false, false, 0)

  lemma LowerCased(s: string)
    requires forall i :: 0 <= i < |s| ==> LowerChar(s[i]) == s[i]
    ensures ToLower(s) == s
  {
  }

  lemma ParentAccepted(c: HttpCookie, u: Url, now: int)
    requires c == PLAIN.(domain := c.domain, path := c.path) && c.domain != "" && c.domain[0] != '.' && c.path != ""
    ensures Accept(c, u, now, {}) == Some(Cookie("n", "v", c.domain, c.path, None, 0, false, false, false, false))
  {
    assert !SecurePrefix("n") && !HostPrefixed("n");
    hide IsPublicSuffix, SecurePrefix, HostPrefixed;
    NoSuffixes(c.domain);
  }

  lemma NoSuffixes(domain: string)
    ensures !IsPublicSuffix(domain, {})
  {
  }

  /** The jar after one call that sets two parent-domain cookies called "n". */
  lemma TwoParentsSet(u: Url, a: HttpCookie, b: HttpCookie) returns (ca: Cookie, cb: Cookie)
    requires a == PLAIN.(domain := a.domain, path := a.path) && a.domain != "" && a.domain[0] != '.' && a.path != ""
    requires b == PLAIN.(domain := b.domain, path := b.path) && b.domain != "" && b.domain[0] != '.' && b.path != ""
    requires NulFree(a.domain) && NulFree(b.domain) && ToLower(a.domain) != ToLower(b.domain)
    ensures ca == Cookie("n", "v", a.domain, a.path, None, 0, false, false, false, false)
    ensures cb == Cookie("n", "v", b.domain, b.path, None, 0, false, false, false, false)
    ensures Identity(ca) != Identity(cb)
    ensures After([SetCall(Some(u), [Some(a), Some(b)], 0)], {}) == map[Identity(ca) := ca, Identity(cb) := cb]
  {
    ParentAccepted(a, u, 0);
    ParentAccepted(b, u, 0);
    ca, cb := Accept(a, u, 0, {}).value, Accept(b, u, 0, {}).value;
    assert NulFree("n");
    IdentityIsInjective(ca, cb);
    hide Accept, Identity, ToLower;
    var call := SetCall(Some(u), [Some(a), Some(b)], 0);
    assert [call][..0] == [] && call.cookies[..1] == [Some(a)] && [Some(a)][..0] == [];
    assert Store(map[], u, [Some(a)], 0, {}) == map[Identity(ca) := ca];
  }

  const SITE := Url("https", "a.b.c", "/x")

  lemma SiteFacts()
    ensures ToLower("a.b.c") == "a.b.c" && ToLower("c") == "c" && ToLower("b.c") == "b.c"
    ensures HasSuffix("a.b.c", "." + "c") && HasSuffix("a.b.c", "." + "b.c")
    ensures PathMatch("/x", "/x") && PathMatch("/", "/x")
    ensures Dots("c") == 0 && Dots("b.c") == 1
  {
    LowerCased("a.b.c");
    LowerCased("c");
    LowerCased("b.c");
    assert "b.c"[1..] == ".c" && ".c"[1..] == "c" && "c"[1..] == "";
  }

  /** A less specific domain with a longer path is sent in every iteration order. */
  lemma LongerPathBeatsDomain()
    ensures var jar := After([SetCall(Some(SITE), [Some(PLAIN.(domain := "c", path := "/x")), Some(PLAIN.(domain := "b.c"))], 0)], {});
            var q := QueryOf(SITE, 0);
            forall order :: IsOrder(order, jar) ==>
              && "n" in Winners(jar, order, q) && Winners(jar, order, q)["n"].domain == "c"
              && !SendsMostSpecific(jar, order, q, "n")
  {
    SiteFacts();
    hide Identity, Winners, IsOrder, Eligible, Names, Dots, QueryOf, ToLower, HasSuffix, PathMatch, After, HasExact, Accept;
    var ca, cb := TwoParentsSet(SITE, PLAIN.(domain := "c", path := "/x"), PLAIN.(domain := "b.c"));
    var jar := map[Identity(ca) := ca, Identity(cb) := cb];
    TwoRivals(jar, ca, cb);
    forall order | IsOrder(order, jar)
      ensures "n" in Winners(jar, order, QueryOf(SITE, 0)) && Winners(jar, order, QueryOf(SITE, 0))["n"].domain == "c"
      ensures !SendsMostSpecific(jar, order, QueryOf(SITE, 0), "n")
    {
      var k := WinnerKey(jar, order, QueryOf(SITE, 0), "n");
    }
  }

  /** Both cookies are rivals on the site, and nothing else is. */
  lemma TwoRivals(jar: Entries, ca: Cookie, cb: Cookie)
    requires Identity(ca) != Identity(cb) && jar == map[Identity(ca) := ca, Identity(cb) := cb]
    requires ca == Cookie("n", "v", "c", ca.path, None, 0, false, false, false, false) && ca.path in {"/", "/x"}
    requires cb == Cookie("n", "v", "b.c", "/", None, 0, false, false, false, false)
    ensures var q := QueryOf(SITE, 0);
            && Rival(jar, q, "n", Identity(ca)) && Rival(jar, q, "n", Identity(cb))
            && (forall k :: Rival(jar, q, "n", k) ==> k == Identity(ca) || k == Identity(cb))
            && !HasExact(jar, q, "n") && "n" in Names(jar, q) && q.host == "a.b.c"
  {
    SiteFacts();
    hide Identity, ToLower, HasSuffix, PathMatch;
    var q := QueryOf(SITE, 0);
    assert Eligible(ca, q) && Eligible(cb, q);
    hide Eligible;
    NameHasRival(jar, q, "n");
  }

  /** With equal paths the two tie, so what is sent depends on the iteration order, and in
      some order it is the less specific one. */
  lemma TieIsReachable()
    ensures var jar := After([SetCall(Some(SITE), [Some(PLAIN.(domain := "c")), Some(PLAIN.(domain := "b.c"))], 0)], {});
            TiedParents(jar, QueryOf(SITE, 0))
            && exists order :: IsOrder(order, jar) && !SendsMostSpecific(jar, order, QueryOf(SITE, 0), "n")
  {
    SiteFacts();
    hide Identity, Winners, IsOrder, Eligible, Names, Dots, QueryOf, ToLower, HasSuffix, PathMatch, After, HasExact, Accept;
    var ca, cb := TwoParentsSet(SITE, PLAIN.(domain := "c"), PLAIN.(domain := "b.c"));
    var jar, q := map[Identity(ca) := ca, Identity(cb) := cb], QueryOf(SITE, 0);
    TwoRivals(jar, ca, cb);
    assert TopParent(jar, q, "n", Identity(ca)) && TopParent(jar, q, "n", Identity(cb));
    var order := OrderStarting(jar, Identity(ca));
    FirstTopWins(jar, order, q, "n", Identity(ca));
    assert !SendsMostSpecific(jar, order, q, "n");
  }

  /** A Set-Cookie with a capital in its Domain is accepted and never sent anywhere. */
  lemma CapitalIsStoredAndNeverSent(u: Url, now: int)
    ensures var c := PLAIN.(domain := "B.c");
            var jar := After([SetCall(Some(SITE.(hostname := "a.B.c")), [Some(c)], 0)], {});
            |jar| == 1 && Names(jar, QueryOf(u, now)) == {}
  {
    var c, at := PLAIN.(domain := "B.c"), SITE.(hostname := "a.B.c");
    ParentAccepted(c, at, 0);
    var stored := Accept(c, at, 0, {}).value;
    assert ToLower("B.c")[0] == 'b';
    CaseMattersIff(stored, u);
    hide Accept, Identity, ToLower;
    var call := SetCall(Some(at), [Some(c)], 0);
    assert [call][..0] == [] && call.cookies[..0] == [];
    assert Store(map[], at, [Some(c)], 0, {}) == map[Identity(stored) := stored];
    assert After([call], {}) == Store(map[], at, [Some(c)], 0, {});
  }

  predicate AlreadyExpired(c: HttpCookie, now: int) { c.maxAge < 0 || (c.expires.Some? && c.expires.value <= now) }

  /** A Set-Cookie that is expired at birth is how a server deletes a cookie (section 5.3 of
      RFC 6265); here it changes nothing at all, so a stored cookie of that identity stays. */
  lemma {:induction false} DeletionIsIgnored(entries: Entries, u: Url, cookies: seq<Option<HttpCookie>>, now: int, suffixes: set<string>)
    requires forall i :: 0 <= i < |cookies| && cookies[i].Some? ==> AlreadyExpired(cookies[i].value, now)
    ensures Store(entries, u, cookies, now, suffixes) == entries
    decreases |cookies|
  {
    if cookies != [] {
      var n := |cookies| - 1;
      DeletionIsIgnored(entries, u, cookies[..n], now, suffixes);
      if cookies[n].Some? {
        AcceptedIff(cookies[n].value, u, now, suffixes);
      }
      hide Accept, Put;
    }
  }

  /** A Set-Cookie is stored exactly when its Domain is not a public suffix, its name prefix
      is honoured and it is not already expired. */
  lemma AcceptedIff(c: HttpCookie, u: Url, now: int, suffixes: set<string>)
    ensures Accept(c, u, now, suffixes).Some? <==>
              && (c.domain == "" || !IsPublicSuffix(if c.domain[0] == '.' then c.domain[1..] else c.domain, suffixes))
              && ("__Secure-" <= c.name || "__Host-" <= c.name ==> c.secure && u.scheme == "https")
              && ("__Host-" <= c.name ==> c.domain == "" && c.path == "/")
              && c.maxAge >= 0 && (c.expires.None? || c.expires.value > now)
  {
    hide IsPublicSuffix;
  }

  /** What an accepted Set-Cookie is stored as, field by field. */
  lemma AcceptedStores(c: HttpCookie, u: Url, now: int, suffixes: set<string>)
    requires Accept(c, u, now, suffixes).Some?
    ensures var ours := Accept(c, u, now, suffixes).value;
            && ours.name == c.name && ours.value == c.value
            && ours.secure == c.secure && ours.httpOnly == c.httpOnly && (ours.sameSite <==> c.sameSite > 0)
            && ours.expires == c.expires && ours.maxAge == c.maxAge
            && ours.path == (if c.path == "" then "/" else c.path)
            && (ours.hostOnly <==> c.domain == "" || c.domain == ".")
            && ours.domain == if ours.hostOnly then ToLower(u.hostname)
                              else if c.domain[0] == '.' then c.domain[1..] else c.domain
  {
    hide IsPublicSuffix, SecurePrefix, HostPrefixed;
  }

  /** What is sent of a stored cookie, field by field. */
  lemma SentCarries(c: Cookie)
    ensures var x := ToStdlib(c);
            && x.name == c.name && x.value == c.value && x.path == c.path
            && x.expires == c.expires && x.maxAge == c.maxAge
            && x.secure == c.secure && x.httpOnly == c.httpOnly && x.sameSite == (if c.sameSite then 2 else 0)
            && x.domain == if c.domain == "" then "" else "." + c.domain
  {
  }

  /** A domain is on the public-suffix list by its lower-cased text, whatever dots surround
      it. */
  lemma PublicSuffixIff(core: string, dots: string, lower: string, suffixes: set<string>)
    requires (core == "" || (core[0] != '.' && core[|core| - 1] != '.')) && forall i :: 0 <= i < |dots| ==> dots[i] == '.'
    requires |lower| == |core|
    requires forall i :: 0 <= i < |core| ==>
               lower[i] == if 65 <= core[i] as int <= 90 then (core[i] as int + 32) as char else core[i]
    ensures IsPublicSuffix(core + dots, suffixes) <==> core != "" && lower in suffixes
    ensures IsPublicSuffix("." + core + dots, suffixes) <==> core != "" && lower in suffixes
  {
    assert lower == AsciiLowerAll(core);
    SurroundedByDots(core, dots);
    hide StripDot, TrimDots, AsciiLowerAll;
  }

  lemma SurroundedByDots(core: string, dots: string)
    requires (core == "" || (core[0] != '.' && core[|core| - 1] != '.')) && forall i :: 0 <= i < |dots| ==> dots[i] == '.'
    ensures TrimDots(StripDot(core + dots)) == core && TrimDots(StripDot("." + core + dots)) == core
  {
    assert ("." + core + dots)[1..] == core + dots;
    TrimDotsIs(core, dots);
    if core != "" {
      assert (core + dots)[0] == core[0];
    } else if dots != "" {
      assert (core + dots)[1..] == core + dots[1..];
      TrimDotsIs(core, dots[1..]);
    }
    hide TrimDots;
  }

  lemma {:induction false} TrimDotsIs(core: string, dots: string)
    requires (core == "" || core[|core| - 1] != '.') && forall i :: 0 <= i < |dots| ==> dots[i] == '.'
    ensures TrimDots(core + dots) == core
    decreases |dots|
  {
    if dots == "" {
      assert core + dots == core;
    } else {
      assert (core + dots)[..|core + dots| - 1] == core + dots[..|dots| - 1];
      TrimDotsIs(core, dots[..|dots| - 1]);
    }
  }

  /** The path a request is matched by. */
  function RequestPath(u: Url): string { if u.path != "" && u.path[0] == '/' then u.path else "/" }

  /** The host itself, or a parent of it at a label boundary. */
  predicate InDomain(c: Cookie, h: string) {
    || c.domain == h
    || (!c.hostOnly && 0 < |c.domain| < |h| && h[|h| - |c.domain|..] == c.domain && h[|h| - |c.domain| - 1] == '.')
  }

  /** The path itself, or a prefix of it at a slash. */
  predicate OnPath(path: string, p: string) {
    path <= p && (path == p || (path != "" && path[|path| - 1] == '/') || p[|path|] == '/')
  }

  lemma DomainMatchIff(c: Cookie, h: string)
    ensures DomainMatch(c, h) <==> c.domain != "" && InDomain(c, h)
  {
    var d := "." + c.domain;
    assert d[1..] == c.domain && d[0] == '.';
    if |d| <= |h| {
      SuffixParts(h, d);
    }
    hide HasSuffix;
  }

  lemma SuffixParts(h: string, d: string)
    requires d != "" && |d| <= |h|
    ensures HasSuffix(h, d) <==> h[|h| - |d|] == d[0] && h[|h| - |d| + 1..] == d[1..]
  {
    var t := h[|h| - |d|..];
    assert t[0] == h[|h| - |d|] && t[1..] == h[|h| - |d| + 1..];
    assert t == [t[0]] + t[1..] && d == [d[0]] + d[1..];
  }

  lemma PathMatchIff(path: string, p: string)
    ensures PathMatch(path, p) <==> OnPath(if path == "" then "/" else path, p)
  {
  }

  /** When a stored cookie applies to a request: it is not expired, Secure only over https,
      its domain is the host or, for a cookie that is not host-only, what the host ends in
      behind a dot, and its path is the request's up to a slash. */
  lemma EligibleIff(c: Cookie, u: Url, now: int)
    ensures Eligible(c, QueryOf(u, now)) <==>
              && (c.expires.None? || c.expires.value > now)
              && (c.secure ==> u.scheme == "https")
              && c.domain != "" && InDomain(c, ToLower(u.hostname))
              && OnPath(if c.path == "" then "/" else c.path, RequestPath(u))
  {
    hide DomainMatch, PathMatch, InDomain, OnPath, ToLower;
    DomainMatchIff(c, ToLower(u.hostname));
    PathMatchIff(c.path, RequestPath(u));
  }

  /** `x` is what is sent of `c`, set from `setter`, and may be sent to `u` at `now`. */
  predicate SafelySent(x: HttpCookie, c: Cookie, setter: Url, u: Url, now: int) {
    && x == ToStdlib(c)
    && (c.expires.None? || c.expires.value > now)
    && InDomain(c, ToLower(u.hostname)) && OnPath(c.path, RequestPath(u))
    && (c.secure || "__Secure-" <= x.name || "__Host-" <= x.name ==> u.scheme == "https")
    && ("__Host-" <= x.name ==> ToLower(setter.hostname) == ToLower(u.hostname) && setter.scheme == "https")
    && (c.hostOnly ==> c.domain == ToLower(u.hostname))
  }

  lemma Provenance(history: seq<SetCall>, suffixes: set<string>, order: seq<string>, q: Query, x: HttpCookie)
    returns (c: Cookie, setter: Url)
    requires IsOrder(order, After(history, suffixes))
    requires x in Sent(Winners(After(history, suffixes), order, q))
    ensures x == ToStdlib(c) && CameFrom(history, suffixes, c, setter) && Eligible(c, q) && c.path != ""
  {
    hide Eligible, Winners, Accept, CameFrom, IsOrder, ToStdlib;
    var entries := After(history, suffixes);
    JarIsLastWriteWins(history, suffixes);
    WinnersAre(entries, order, q);
    var n :| n in Winners(entries, order, q) && ToStdlib(Winners(entries, order, q)[n]) == x;
    c := Winners(entries, order, q)[n];
    var k :| k in entries && entries[k] == c;
    assert LastWith(Accepted(history, suffixes), k, c);
    assert c in Accepted(history, suffixes);
    AcceptedCameFrom(history, suffixes, c);
    setter :| CameFrom(history, suffixes, c, setter);
  }

  lemma PrefixesHonoured(history: seq<SetCall>, suffixes: set<string>, c: Cookie, setter: Url)
    requires CameFrom(history, suffixes, c, setter)
    ensures "__Secure-" <= c.name || "__Host-" <= c.name ==> c.secure && setter.scheme == "https"
    ensures "__Host-" <= c.name ==> c.hostOnly && c.domain == ToLower(setter.hostname) && c.path == "/"
  {
    hide Accept;
    var i, j :| 0 <= i < |history| && 0 <= j < |history[i].cookies|
      && history[i].url == Some(setter) && history[i].cookies[j].Some?
      && Accept(history[i].cookies[j].value, setter, history[i].now, suffixes) == Some(c);
    AcceptedPrefixRules(history[i].cookies[j].value, setter, history[i].now, suffixes);
  }

  /** Over every history of SetCookies calls with any clock, a returned cookie is one that
      was accepted from some setter, is unexpired, matches host and path, and is Secure
      only over https. So a __Secure- cookie never leaves over http, and a __Host- cookie
      goes only to the host that set it. */
  lemma ReturnedCookiesAreSafe(history: seq<SetCall>, suffixes: set<string>, order: seq<string>, u: Url, now: int, x: HttpCookie)
    requires IsOrder(order, After(history, suffixes))
    requires x in Sent(Winners(After(history, suffixes), order, QueryOf(u, now)))
    ensures exists c, setter :: CameFrom(history, suffixes, c, setter) && SafelySent(x, c, setter, u, now)
  {
    hide Eligible, Winners, CameFrom, IsOrder, InDomain, OnPath, Sent, QueryOf, ToLower, DomainMatch;
    var c, setter := Provenance(history, suffixes, order, QueryOf(u, now), x);
    PrefixesHonoured(history, suffixes, c, setter);
    EligibleIff(c, u, now);
    HostOnlyMeansHost(c, ToLower(u.hostname));
  }

  lemma HostOnlyMeansHost(c: Cookie, h: string)
    ensures InDomain(c, h) && c.hostOnly ==> c.domain == h
  {
  }

  /** Conversely every name with a stored cookie that applies is answered. */
  lemma AnswerCoversNames(entries: Entries, order: seq<string>, u: Url, now: int, k: string)
    requires IsOrder(order, entries) && k in entries && Eligible(entries[k], QueryOf(u, now))
    ensures exists x :: x in Sent(Winners(entries, order, QueryOf(u, now))) && x.name == entries[k].name
  {
    var w, n := Winners(entries, order, QueryOf(u, now)), entries[k].name;
    WinnersAre(entries, order, QueryOf(u, now));
    hide Eligible, Winners, IsOrder;
    assert n in w && ToStdlib(w[n]) in Sent(w);
  }

  /** The answer goes from longer paths to shorter ones, and by name within a path. */
  lemma AnswerIsSorted(entries: Entries, order: seq<string>, q: Query, out: seq<HttpCookie>, i: nat, j: nat)
    requires IsOrder(order, entries) && IsAnswer(entries, order, q, out) && i < j < |out|
    ensures |out[i].path| > |out[j].path| || (out[i].path == out[j].path && LexLess(out[i].name, out[j].name))
  {
    hide Winners, Sent, IsOrder;
    assert SendBefore(out[i], out[j]);
  }

  /** The listing goes by name, then by domain, then by path. */
  lemma ListingIsSorted(out: seq<Cookie>, i: nat, j: nat)
    requires Ordering.StrictlySorted(ListedBefore, out) && i < j < |out|
    ensures var a, b := out[i], out[j];
            || LexLess(a.name, b.name)
            || (a.name == b.name && LexLess(a.domain, b.domain))
            || (a.name == b.name && a.domain == b.domain && LexLess(a.path, b.path))
  {
    assert ListedBefore(out[i], out[j]);
  }

  /** At most one cookie per name is returned. */
  lemma OnePerName(entries: Entries, order: seq<string>, q: Query, x: HttpCookie, y: HttpCookie)
    requires IsOrder(order, entries)
    requires x in Sent(Winners(entries, order, q)) && y in Sent(Winners(entries, order, q)) && x.name == y.name
    ensures x == y
  {
    WinnersAre(entries, order, q);
  }

  // ----- the Jar object

  predicate ListedBefore(a: Cookie, b: Cookie) {
    if a.name != b.name then LexLess(a.name, b.name)
    else if a.domain != b.domain then LexLess(a.domain, b.domain)
    else LexLess(a.path, b.path)
  }

  lemma ListingIsTotal(entries: Entries)
    requires ValidJar(entries)
    ensures Ordering.StrictTotalOn(ListedBefore, entries.Values)
  {
    var s := entries.Values;
    forall x | x in s ensures !ListedBefore(x, x) {
      LexIrreflexive(x.path);
    }
    forall x, y | x in s && y in s && x != y ensures ListedBefore(x, y) || ListedBefore(y, x) {
      var j :| j in entries && entries[j] == x;
      var k :| k in entries && entries[k] == y;
      if x.name != y.name {
        LexTotal(x.name, y.name);
      } else if x.domain != y.domain {
        LexTotal(x.domain, y.domain);
      } else if x.path != y.path {
        LexTotal(x.path, y.path);
      }
    }
    forall x, y, z | x in s && y in s && z in s && ListedBefore(x, y) && ListedBefore(y, z) ensures ListedBefore(x, z) {
      ListingTransitive(x, y, z);
    }
  }

  lemma LexAsymmetric(a: string, b: string)
    requires LexLess(a, b)
    ensures a != b && !LexLess(b, a)
  {
    LexIrreflexive(a);
    if LexLess(b, a) {
      LexTransitive(a, b, a);
    }
  }

  lemma ListingTransitive(x: Cookie, y: Cookie, z: Cookie)
    requires ListedBefore(x, y) && ListedBefore(y, z)
    ensures ListedBefore(x, z)
  {
    if x.name != y.name || y.name != z.name {
      if x.name != y.name { LexAsymmetric(x.name, y.name); }
      if y.name != z.name { LexAsymmetric(y.name, z.name); }
      if x.name != y.name && y.name != z.name { LexTransitive(x.name, y.name, z.name); }
    } else if x.domain != y.domain || y.domain != z.domain {
      if x.domain != y.domain { LexAsymmetric(x.domain, y.domain); }
      if y.domain != z.domain { LexAsymmetric(y.domain, z.domain); }
      if x.domain != y.domain && y.domain != z.domain { LexTransitive(x.domain, y.domain, z.domain); }
    } else {
      LexTransitive(x.path, y.path, z.path);
    }
  }

  lemma SkipNil(entries: Entries, u: Url, now: int, suffixes: set<string>)
    ensures StoreOne(entries, u, None, now, suffixes) == entries
  {
  }

  lemma NamedIffCandidates(entries: Entries, order: seq<string>, name: string, q: Query)
    requires IsOrder(order, entries)
    ensures forall x :: x in order <==> x in entries
    ensures Candidates(entries, order, name, q) != [] <==> name in Names(entries, q)
  {
    hide Eligible, Candidates, IsOrder;
    CandidateKeys(entries, order, name, q);
    NameHasRival(entries, q, name);
    var cands := Candidates(entries, order, name, q);
    assert cands != [] <==> exists c :: c in cands by {
      assert cands != [] ==> cands[0] in cands;
    }
  }

  /** `out` holds the winners of all names but those in `names`. */
  ghost predicate Picked(winners: map<string, Cookie>, names: set<string>, out: seq<HttpCookie>) {
    && (forall x :: x in out ==> x.name in winners && x.name !in names && x == ToStdlib(winners[x.name]))
    && (forall n :: n in winners && n !in names ==> ToStdlib(winners[n]) in out)
    && Distinct(out)
  }

  lemma PickOne(winners: map<string, Cookie>, names: set<string>, out: seq<HttpCookie>, n: string)
    requires Picked(winners, names, out) && n in names && n in winners && winners[n].name == n
    ensures Picked(winners, names - {n}, out + [ToStdlib(winners[n])])
  {
    assert ToStdlib(winners[n]) !in out;
  }

  lemma AllPicked(winners: map<string, Cookie>, out: seq<HttpCookie>)
    requires Picked(winners, {}, out)
    ensures Ordering.Elements(out) == Sent(winners) && Distinct(out)
  {
  }

  /** One winner per name, in whatever order the runtime visits the names. */
  method PickWinners(byName: map<string, seq<Cookie>>, host: string, ghost winners: map<string, Cookie>)
    returns (out: seq<HttpCookie>)
    requires winners.Keys == byName.Keys
    requires forall n :: n in byName ==> Choose(byName[n], host) == Some(winners[n]) && winners[n].name == n
    ensures Ordering.Elements(out) == Sent(winners) && Distinct(out)
  {
    hide Choose, ToStdlib;
    out := [];
    var names := byName.Keys;
    assert Picked(winners, names, out);
    hide Picked;
    while names != {}
      invariant names <= byName.Keys && Picked(winners, names, out)
      decreases |names|
    {
      var n :| n in names;
      var winner := SelectCookie(byName[n], host);
      PickOne(winners, names, out, n);
      out := out + [ToStdlib(winner.value)];
      names := names - {n};
    }
    AllPicked(winners, out);
  }

  ghost predicate Grouped(byName: map<string, seq<Cookie>>, entries: Entries, order: seq<string>, q: Query)
    requires forall k :: k in order ==> k in entries
  {
    && (forall n :: n in byName <==> Candidates(entries, order, n, q) != [])
    && (forall n :: n in byName ==> byName[n] == Candidates(entries, order, n, q))
  }

  function AddTo(byName: map<string, seq<Cookie>>, c: Cookie): map<string, seq<Cookie>> {
    byName[c.name := (if c.name in byName then byName[c.name] else []) + [c]]
  }

  lemma GroupedStep(byName: map<string, seq<Cookie>>, entries: Entries, order: seq<string>, i: nat, q: Query)
    requires i < |order| && (forall k :: k in order ==> k in entries)
    requires (forall k :: k in order[..i] ==> k in entries) && Grouped(byName, entries, order[..i], q)
    ensures forall k :: k in order[..i + 1] ==> k in entries
    ensures var c := entries[order[i]];
            Grouped(if Eligible(c, q) then AddTo(byName, c) else byName, entries, order[..i + 1], q)
  {
    hide Eligible;
    assert order[..i + 1][..i] == order[..i];
    assert forall n :: Candidates(entries, order[..i], n, q) + [] == Candidates(entries, order[..i], n, q);
  }

  class Jar {
    const suffixes: set<string>
    var entries: Entries

    ghost predicate Valid()
      reads this
    {
      ValidJar(entries)
    }

    constructor (suffixes: set<string>)
      ensures this.suffixes == suffixes && entries == map[] && Valid()
    {
      this.suffixes := suffixes;
      entries := map[];
    }

    method SetCookies(u: Option<Url>, cookies: seq<Option<HttpCookie>>, now: int)
      requires Valid()
      modifies this
      ensures Valid()
      ensures entries == Apply(old(entries), SetCall(u, cookies, now), suffixes)
    {
      if u.None? {
        return;
      }
      for i := 0 to |cookies|
        invariant entries == Store(old(entries), u.value, cookies[..i], now, suffixes)
      {
        hide StoreOne;
        assert cookies[..i + 1][..i] == cookies[..i];
        if cookies[i].Some? {
          SetOne(u.value, cookies[i].value, now);
        } else {
          SkipNil(entries, u.value, now, suffixes);
        }
      }
      assert cookies[..|cookies|] == cookies;
      StoreKeepsValid(old(entries), u.value, cookies, now, suffixes);
    }

    /** The body of the SetCookies loop for a cookie that is not nil. */
    method SetOne(u: Url, c: HttpCookie, now: int)
      modifies this`entries
      ensures entries == StoreOne(old(entries), u, Some(c), now, suffixes)
    {
      hide IsPublicSuffix, SecurePrefix, HostPrefixed;
      var ours := FromStdlib(c);
      var hostOnly := Validate(c, u, suffixes);
      if hostOnly.Err? {
        return;
      }
      ours := ours.(hostOnly := hostOnly.value);
      if hostOnly.value {
        ours := ours.(domain := ToLower(u.hostname));
      }
      if ours.maxAge < 0 {
        return;
      }
      if IsExpired(ours, now) {
        return;
      }
      entries := entries[Identity(ours) := ours];
    }

    /** `order` is the order in which the runtime happens to iterate the entry map. */
    method Group(order: seq<string>, q: Query) returns (byName: map<string, seq<Cookie>>)
      requires IsOrder(order, entries)
      ensures forall k :: k in order <==> k in entries
      ensures byName.Keys == Names(entries, q)
      ensures forall n :: n in byName ==> byName[n] == Candidates(entries, order, n, q)
    {
      OrderCovers(entries, order);
      byName := map[];
      for i := 0 to |order|
        invariant forall k :: k in order[..i] ==> k in entries
        invariant Grouped(byName, entries, order[..i], q)
      {
        hide Grouped, Candidates, Names, IsOrder;
        GroupedStep(byName, entries, order, i, q);
        var c := entries[order[i]];
        if Eligible(c, q) {
          byName := AddTo(byName, c);
        }
      }
      assert order[..|order|] == order;
      forall n ensures n in byName <==> n in Names(entries, q) {
        NamedIffCandidates(entries, order, n, q);
      }
    }

    method Cookies(u: Option<Url>, now: int, order: seq<string>) returns (out: seq<HttpCookie>)
      requires Valid() && IsOrder(order, entries)
      ensures u.None? || u.value.hostname == "" ==> out == []
      ensures u.Some? && u.value.hostname != "" ==> IsAnswer(entries, order, QueryOf(u.value, now), out)
    {
      if u.None? {
        return [];
      }
      var q := QueryOf(u.value, now);
      if q.host == "" {
        return [];
      }
      var byName := Group(order, q);
      WinnersAre(entries, order, q);
      ghost var winners := Winners(entries, order, q);
      out := PickWinners(byName, q.host, winners);
      SendOrderIsTotal(entries, order, q);
      out := Ordering.Sort(out, SendBefore);
    }

    /** The listing of all entries does not depend on iteration order at all. */
    method All(order: seq<string>) returns (out: seq<Cookie>)
      requires Valid() && IsOrder(order, entries)
      ensures Ordering.Elements(out) == entries.Values && Ordering.StrictlySorted(ListedBefore, out)
    {
      OrderCovers(entries, order);
      out := [];
      for i := 0 to |order|
        invariant |out| == i && forall k :: 0 <= k < i ==> out[k] == entries[order[k]]
      {
        out := out + [entries[order[i]]];
      }
      forall c | c in entries.Values ensures c in out {
        var k :| k in entries && entries[k] == c;
        var i :| 0 <= i < |order| && order[i] == k;
        assert out[i] == c;
      }
      assert Ordering.Elements(out) == entries.Values;
      ListingIsTotal(entries);
      out := Ordering.Sort(out, ListedBefore);
    }
  }
}
