/** The cookie jar: a list mutated in place, whose contents after any history of
    operations are exactly the surviving additions in the order they were made. */
module CookieJar {
  import opened Basics
  import opened Wrappers

  datatype SameSite = Strict | Lax | NoRestriction

  /** `expires` is in clock ticks. */
  datatype Cookie = Cookie(
    name: string,
    value: Option<string>,
    expires: Option<int>,
    domain: Option<string>,
    path: Option<string>,
    sameSite: Option<SameSite>,
    partitioned: bool,
    secure: bool,
    httpOnly: bool,
    tailmatch: bool)

  /** What the jar looks at in a URL: host, encoded path and its segments, scheme. */
  datatype Url = Url(host: string, path: string, segments: seq<string>, https: bool)

  predicate StartsWith(s: string, p: string) { |p| <= |s| && s[..|p|] == p }

  predicate EndsWith(s: string, p: string) { |p| <= |s| && s[|s| - |p|..] == p }

  // ------------------------------------------------------------------ matching

  predicate DomainMatch(request: string, domain: string, tailmatch: bool) {
    if !tailmatch then request == domain
    else
      var d := if StartsWith(domain, ".") then domain[1..] else domain;
      EndsWith(request, d) && (|request| == |d| || request[|request| - |d| - 1] == '.')
  }

  /** Tail matching, with a leading dot taken off, accepts the domain itself and its
      subdomains, nothing else (section 5.1.3 of RFC 6265). */
  lemma TailMatchMeans(request: string, domain: string)
    ensures var d := if domain != "" && domain[0] == '.' then domain[1..] else domain;
            DomainMatch(request, domain, true) <==> request == d || EndsWith(request, "." + d)
  {
    var d := if domain != "" && domain[0] == '.' then domain[1..] else domain;
    assert domain != "" ==> domain[..1] == [domain[0]];
    var n := |request| - |d|;
    if n > 0 {
      assert request[n - 1..] == [request[n - 1]] + request[n..];
      assert ("." + d)[0] == '.' && ("." + d)[1..] == d;
    } else if n == 0 {
      assert request[n..] == request;
    }
  }

  /** So with or without the dot it means the same. */
  lemma DomainMatchMeans(request: string, d: string)
    requires !StartsWith(d, ".")
    ensures DomainMatch(request, d, true) <==> request == d || EndsWith(request, "." + d)
    ensures DomainMatch(request, "." + d, true) <==> DomainMatch(request, d, true)
  {
    assert d != "" ==> d[..1] == [d[0]];
    assert ("." + d)[1..] == d;
    TailMatchMeans(request, d);
    TailMatchMeans(request, "." + d);
  }

  /** The path test as coded; its last line looks at an index counted from the
      wrong end. The cookie's path is never empty. */
  predicate PathMatch(request: string, path: string)
    requires path != ""
  {
    || request == ""
    || (StartsWith(request, path)
        && (|request| == |path| || EndsWith(path, "/") || request[|request| - |path|] == '/'))
  }

  /** Path matching as section 5.1.4 of RFC 6265 defines it. */
  predicate StandardPathMatch(request: string, path: string)
    requires path != ""
  {
    || request == path
    || (StartsWith(request, path) && (EndsWith(path, "/") || (|request| > |path| && request[|path|] == '/')))
  }

  /** The two agree exactly when the request path is not empty and the two
      inspected positions agree, as far as they are inspected at all. */
  lemma PathMatchVersusStandard(request: string, path: string)
    requires path != ""
    ensures PathMatch(request, path) == StandardPathMatch(request, path)
       <==> request != ""
            && (StartsWith(request, path) && |request| > |path| && !EndsWith(path, "/")
                ==> (request[|path|] == '/' <==> request[|request| - |path|] == '/'))
  {
    if StartsWith(request, path) && |request| == |path| {
      assert request == path;
    }
  }

  /** A wrong rejection, a wrong acceptance, and the empty path, always accepted. */
  lemma PathMatchDiffersFromStandard()
    ensures !PathMatch("/abc/d", "/abc") && StandardPathMatch("/abc/d", "/abc")
    ensures PathMatch("/abc/d", "/a") && !StandardPathMatch("/abc/d", "/a")
    ensures PathMatch("", "/abc") && !StandardPathMatch("", "/abc")
  {
    assert "/abc/d"[..4] == "/abc" && "/abc/d"[..2] == "/a";
  }

  // --------------------------------------------------------------- default path

  function Join(segments: seq<string>): string {
    if segments == [] then "" else Join(segments[..|segments| - 1]) + "/" + segments[|segments| - 1]
  }

  /** All segments but the last, or the root. */
  function DefaultPath(segments: seq<string>): (p: string)
    ensures p != ""
  {
    var p := if segments == [] then "" else Join(segments[..|segments| - 1]);
    if p == "" then "/" else p
  }

  /** The encoded path of a URL with these segments; no segments are the empty
      path or the root. */
  predicate IsPathOf(path: string, segments: seq<string>) {
    if segments == [] then path == "" || path == "/" else path == Join(segments)
  }

  /** A cookie that names no path is not always sent back to the URL that set it:
      it is if and only if the default path is the root or ends in a slash, or a
      slash happens to stand where the path test looks. */
  lemma ReturnsToItsOwnUrlIff(segments: seq<string>, path: string)
    requires IsPathOf(path, segments)
    ensures PathMatch(path, DefaultPath(segments)) <==>
              || |segments| <= 1
              || EndsWith(DefaultPath(segments), "/")
              || var last := segments[|segments| - 1]; |last| + 1 < |path| && path[|last| + 1] == '/'
  {
    if segments != [] {
      var last, dir := segments[|segments| - 1], Join(segments[..|segments| - 1]);
      assert path == dir + "/" + last;
      assert dir == "" <==> |segments| == 1;
      if dir == "" {
        assert path[..1] == "/";
      } else {
        assert path[..|dir|] == dir;
        assert |path| - |dir| == |last| + 1;
      }
    }
  }

  lemma NotAlwaysReturned()
    ensures Join(["abc", "d"]) == "/abc/d" && DefaultPath(["abc", "d"]) == "/abc"
    ensures !PathMatch("/abc/d", "/abc")
  {
    assert ["abc", "d"][..1] == ["abc"];
    assert ["abc"][..0] == [];
    assert Join(["abc"]) == "/abc";
    PathMatchDiffersFromStandard();
  }

  // ------------------------------------------------------ operations on the jar

  datatype Op =
    | Add(url: Url, cookie: Cookie, now: int)
    | MakeField(url: Url, now: int)
    | ClearSession
    | Load(cookie: Cookie)

  /** The cookie as `add` stores it: domain and path filled in. */
  function Stored(url: Url, c: Cookie): (s: Cookie)
    ensures s.domain.Some? && s.path.Some?
  {
    c.(domain := if c.domain.Some? then c.domain else Some(url.host),
       tailmatch := c.domain.Some? || c.tailmatch,
       path := if c.path.Some? then c.path else Some(DefaultPath(url.segments)))
  }

  /** A secure cookie is taken only from a secure URL. */
  predicate Accepted(op: Op) { op.Add? && (op.cookie.secure ==> op.url.https) }

  predicate SameKey(a: Cookie, b: Cookie) { a.name == b.name && a.path == b.path && a.domain == b.domain }

  predicate ExpiredFor(c: Cookie, now: int) { c.expires.Some? && c.expires.value <= now }

  /** The operation removes this cookie from the jar. */
  predicate Kills(op: Op, c: Cookie) {
    match op
    case Add(url, cookie, _) => Accepted(op) && SameKey(Stored(url, cookie), c)
    case MakeField(_, now) => ExpiredFor(c, now)
    case ClearSession => c.expires.None?
    case Load(_) => false
  }

  /** The operation puts a cookie into the jar: an accepted one not yet expired, or
      one read from a file. */
  predicate Inserts(op: Op) {
    op.Load? || (Accepted(op) && !(op.cookie.expires.Some? && op.cookie.expires.value < op.now))
  }

  /** The cookie it puts there; one from a file goes in as it is. */
  function Put(op: Op): Cookie
    requires op.Add? || op.Load?
  {
    if op.Load? then op.cookie else Stored(op.url, op.cookie)
  }

  function Surviving(jar: seq<Cookie>, op: Op): seq<Cookie> {
    if jar == [] then []
    else
      var c := jar[|jar| - 1];
      var rest := Surviving(jar[..|jar| - 1], op);
      if Kills(op, c) then rest else rest + [c]
  }

  function Inserted(op: Op): seq<Cookie> {
    if Inserts(op) then [Put(op)] else []
  }

  function Step(jar: seq<Cookie>, op: Op): seq<Cookie> { Surviving(jar, op) + Inserted(op) }

  /** The jar after a history that starts empty. */
  function After(ops: seq<Op>): seq<Cookie> {
    if ops == [] then [] else Step(After(ops[..|ops| - 1]), ops[|ops| - 1])
  }

  lemma SurvivingAppend(jar: seq<Cookie>, c: Cookie, op: Op)
    ensures Surviving(jar + [c], op) == if Kills(op, c) then Surviving(jar, op) else Surviving(jar, op) + [c]
  {
    assert (jar + [c])[..|jar|] == jar;
  }

  // ----------------------------------------------------------------- histories

  /** The i-th operation put a cookie into the jar that nothing has removed since. */
  ghost predicate Alive(ops: seq<Op>, i: nat)
    requires i < |ops|
  {
    && Inserts(ops[i])
    && forall j | i < j < |ops| :: !Kills(ops[j], Put(ops[i]))
  }

  /** The cookies of the first n operations that are alive in the whole history. */
  ghost function AliveUpTo(ops: seq<Op>, n: nat): seq<Cookie>
    requires n <= |ops|
  {
    if n == 0 then []
    else if Alive(ops, n - 1) then AliveUpTo(ops, n - 1) + [Put(ops[n - 1])]
    else AliveUpTo(ops, n - 1)
  }

  lemma AliveShrinks(ops: seq<Op>, op: Op, i: nat)
    requires i < |ops| && Inserts(ops[i])
    ensures Alive(ops + [op], i) <==> Alive(ops, i) && !Kills(op, Put(ops[i]))
  {
    var ext := ops + [op];
    assert ext[|ops|] == op;
    assert forall j | 0 <= j < |ops| :: ext[j] == ops[j];
    if Alive(ext, i) {
      forall j | i < j < |ops|
        ensures !Kills(ops[j], Put(ops[i]))
      {
        assert ext[j] == ops[j];
      }
    }
  }

  lemma {:induction false} OneMoreOperation(ops: seq<Op>, op: Op, n: nat)
    requires n <= |ops|
    ensures AliveUpTo(ops + [op], n) == Surviving(AliveUpTo(ops, n), op)
  {
    if n > 0 {
      OneMoreOperation(ops, op, n - 1);
      assert (ops + [op])[n - 1] == ops[n - 1];
      if Inserts(ops[n - 1]) {
        AliveShrinks(ops, op, n - 1);
      }
      if Alive(ops, n - 1) {
        SurvivingAppend(AliveUpTo(ops, n - 1), Put(ops[n - 1]), op);
      }
    }
  }

  /** The jar after any history holds exactly the additions that are alive, in the
      order they were made: a later accepted addition, even of an already expired
      cookie, removes its key first, and a cookie read from a file is appended. */
  lemma {:induction false} JarIsItsHistory(ops: seq<Op>)
    ensures After(ops) == AliveUpTo(ops, |ops|)
  {
    if ops != [] {
      var init, op := ops[..|ops| - 1], ops[|ops| - 1];
      JarIsItsHistory(init);
      assert init + [op] == ops;
      assert AliveUpTo(ops, |init|) == Surviving(After(init), op) by {
        OneMoreOperation(init, op, |init|);
      }
      assert Alive(ops, |init|) <==> Inserts(op);
      assert Surviving(After(init), op) + [] == Surviving(After(init), op);
    }
  }

  lemma {:induction false} Origin(ops: seq<Op>, n: nat, k: nat) returns (i: nat)
    requires n <= |ops| && k < |AliveUpTo(ops, n)|
    ensures i < n && Alive(ops, i) && AliveUpTo(ops, n)[k] == Put(ops[i])
    ensures |AliveUpTo(ops, i)| == k
  {
    if k < |AliveUpTo(ops, n - 1)| {
      i := Origin(ops, n - 1, k);
    } else {
      i := n - 1;
    }
  }

  lemma {:induction false} AliveGrows(ops: seq<Op>, m: nat, n: nat)
    requires m <= n <= |ops|
    ensures |AliveUpTo(ops, m)| <= |AliveUpTo(ops, n)|
  {
    if m < n {
      AliveGrows(ops, m, n - 1);
    }
  }

  ghost predicate KeysUnique(jar: seq<Cookie>) {
    forall k, l | 0 <= k < l < |jar| :: !SameKey(jar[k], jar[l])
  }

  /** Reading a file put a cookie behind one with the same key that is still there. */
  ghost predicate Duplicates(ops: seq<Op>, i: nat, j: nat)
    requires i < j < |ops|
  {
    ops[j].Load? && Alive(ops, i) && Alive(ops, j) && SameKey(Put(ops[i]), Put(ops[j]))
  }

  lemma {:induction false} AlivePosition(ops: seq<Op>, i: nat, n: nat)
    requires i < n <= |ops| && Alive(ops, i)
    ensures |AliveUpTo(ops, i)| < |AliveUpTo(ops, n)|
    ensures AliveUpTo(ops, n)[|AliveUpTo(ops, i)|] == Put(ops[i])
  {
    if n - 1 > i {
      AlivePosition(ops, i, n - 1);
    }
  }

  /** Keys are unique exactly if no file brought a duplicate that is still there:
      additions remove their key first, and only loading does not. */
  lemma KeysAreUniqueIff(ops: seq<Op>)
    ensures KeysUnique(After(ops)) <==> forall i, j | 0 <= i < j < |ops| :: !Duplicates(ops, i, j)
  {
    JarIsItsHistory(ops);
    if KeysUnique(After(ops)) {
      forall i, j | 0 <= i < j < |ops|
        ensures !Duplicates(ops, i, j)
      {
        if Duplicates(ops, i, j) {
          AlivePosition(ops, i, |ops|);
          AlivePosition(ops, j, |ops|);
          AlivePosition(ops, i, j);
          assert false;
        }
      }
    }
    if forall i, j | 0 <= i < j < |ops| :: !Duplicates(ops, i, j) {
      forall k, l | 0 <= k < l < |After(ops)|
        ensures !SameKey(After(ops)[k], After(ops)[l])
      {
        var i := Origin(ops, |ops|, k);
        var j := Origin(ops, |ops|, l);
        if j <= i {
          AliveGrows(ops, j, i);
          assert false;
        }
        assert !Duplicates(ops, i, j) && !Kills(ops[j], Put(ops[i]));
      }
    }
  }

  /** Without files keys are always unique. */
  lemma KeysAreUnique(ops: seq<Op>)
    requires forall i | 0 <= i < |ops| :: !ops[i].Load?
    ensures KeysUnique(After(ops))
  {
    KeysAreUniqueIff(ops);
  }

  /** The same file read twice leaves each of its cookies there twice. */
  lemma LoadingTwiceDuplicates(c: Cookie)
    ensures After([Load(c), Load(c)]) == [c, c] && !KeysUnique([c, c])
  {
    LoadsAppend([], [c, c]);
    assert Loads([c, c]) == [Load(c), Load(c)] && [] + Loads([c, c]) == Loads([c, c]);
    assert SameKey([c, c][0], [c, c][1]);
  }

  /** Reading a file's cookies, one after the other. */
  function Loads(cs: seq<Cookie>): (ops: seq<Op>)
    ensures |ops| == |cs| && forall i | 0 <= i < |ops| :: ops[i] == Load(cs[i])
  {
    seq(|cs|, i requires 0 <= i < |cs| => Load(cs[i]))
  }

  lemma AfterLoad(ops: seq<Op>, c: Cookie)
    ensures After(ops + [Load(c)]) == After(ops) + [c]
  {
    assert (ops + [Load(c)])[..|ops|] == ops;
    NothingKilled(After(ops), Load(c));
  }

  lemma LoadsMore(ops: seq<Op>, cs: seq<Cookie>, c: Cookie)
    ensures ops + Loads(cs + [c]) == (ops + Loads(cs)) + [Load(c)]
  {
    assert Loads(cs + [c]) == Loads(cs) + [Load(c)];
  }

  /** Loading appends the cookies, in order. */
  ghost predicate LoadingAppends(ops: seq<Op>, cs: seq<Cookie>) { After(ops + Loads(cs)) == After(ops) + cs }

  lemma OneLoadMore(ops: seq<Op>, cs: seq<Cookie>, c: Cookie)
    requires LoadingAppends(ops, cs)
    ensures LoadingAppends(ops, cs + [c])
  {
    LoadsMore(ops, cs, c);
    AfterLoad(ops + Loads(cs), c);
    ConcatAssociates(After(ops), cs, [c]);
  }

  lemma {:induction false} LoadsAppend(ops: seq<Op>, cs: seq<Cookie>)
    ensures LoadingAppends(ops, cs)
    decreases |cs|
  {
    if cs == [] {
      assert ops + Loads(cs) == ops && After(ops) + cs == After(ops);
    } else {
      LoadsAppend(ops, cs[..|cs| - 1]);
      OneLoadMore(ops, cs[..|cs| - 1], cs[|cs| - 1]);
      assert cs[..|cs| - 1] + [cs[|cs| - 1]] == cs;
    }
  }

  /** What `add` fills in and a file line always has. */
  predicate BringsKey(op: Op) { op.Load? ==> op.cookie.domain.Some? && op.cookie.path.Some? }

  lemma CookiesHaveKeys(ops: seq<Op>, k: nat)
    requires k < |After(ops)| && forall i | 0 <= i < |ops| :: BringsKey(ops[i])
    ensures After(ops)[k].domain.Some? && After(ops)[k].path.Some?
  {
    JarIsItsHistory(ops);
    var i := Origin(ops, |ops|, k);
    assert BringsKey(ops[i]);
  }

  /** The cookie of an alive addition is in the jar. */
  lemma {:induction false} AliveIsPresent(ops: seq<Op>, i: nat, n: nat)
    requires i < n <= |ops| && Alive(ops, i)
    ensures Put(ops[i]) in AliveUpTo(ops, n)
  {
    if n - 1 == i {
      var c := Put(ops[i]);
      assert AliveUpTo(ops, n)[|AliveUpTo(ops, n)| - 1] == c;
    } else {
      AliveIsPresent(ops, i, n - 1);
    }
  }

  // ----------------------------------------------------------- the cookie field

  /** The jar's cookies have what a lookup needs. */
  predicate Complete(jar: seq<Cookie>) {
    forall k | 0 <= k < |jar| :: jar[k].domain.Some? && jar[k].path.Some? && jar[k].path.value != ""
  }

  predicate Matches(url: Url, c: Cookie)
    requires c.domain.Some? && c.path.Some? && c.path.value != ""
  {
    && DomainMatch(url.host, c.domain.value, c.tailmatch)
    && PathMatch(url.path, c.path.value)
    && (c.secure ==> url.https)
  }

  /** The cookies a request for `url` gets, in order. */
  function Selected(jar: seq<Cookie>, url: Url, now: int): seq<Cookie>
    requires Complete(jar)
  {
    if jar == [] then []
    else
      var c := jar[|jar| - 1];
      var rest := Selected(jar[..|jar| - 1], url, now);
      if !ExpiredFor(c, now) && Matches(url, c) then rest + [c] else rest
  }

  function Render(cs: seq<Cookie>): string {
    if cs == [] then ""
    else
      var c := cs[|cs| - 1];
      Render(cs[..|cs| - 1]) + (c.name + "=" + c.value.GetOr("") + "; ")
  }

  lemma {:induction false} SelectedMeans(jar: seq<Cookie>, url: Url, now: int, c: Cookie)
    requires Complete(jar)
    ensures c in Selected(jar, url, now) <==> c in jar && !ExpiredFor(c, now) && Matches(url, c)
  {
    if jar != [] {
      var init, last := jar[..|jar| - 1], jar[|jar| - 1];
      SelectedMeans(init, url, now, c);
      assert jar == init + [last];
    }
  }

  lemma {:induction false} SurvivingMeans(jar: seq<Cookie>, op: Op, c: Cookie)
    ensures c in Surviving(jar, op) <==> c in jar && !Kills(op, c)
  {
    if jar != [] {
      var init, last := jar[..|jar| - 1], jar[|jar| - 1];
      SurvivingMeans(init, op, c);
      assert jar == init + [last];
    }
  }

  /** After make_field a cookie is in the jar exactly if it was and is not expired. */
  lemma FieldDropsExactlyExpired(jar: seq<Cookie>, url: Url, now: int, c: Cookie)
    ensures c in Step(jar, MakeField(url, now)) <==> c in jar && (c.expires.None? || now < c.expires.value)
  {
    SurvivingMeans(jar, MakeField(url, now), c);
  }

  /** After clear_session_cookies a cookie is there exactly if it was and expires. */
  lemma ClearDropsExactlySession(jar: seq<Cookie>, c: Cookie)
    ensures c in Step(jar, ClearSession) <==> c in jar && c.expires.Some?
  {
    SurvivingMeans(jar, ClearSession, c);
  }

  /** What an accepted addition leaves, in the fields of the cookie and the time: the
      cookie, completed, comes last unless it has expired; of the others those stay
      that differ in name, domain or path. */
  lemma AdditionLeaves(jar: seq<Cookie>, url: Url, c: Cookie, now: int, o: Cookie)
    requires c.secure ==> url.https
    ensures var jar' := Step(jar, Add(url, c, now));
            var domain := Some(if c.domain.Some? then c.domain.value else url.host);
            var path := Some(if c.path.Some? then c.path.value else DefaultPath(url.segments));
            var live := c.expires.None? || now <= c.expires.value;
            && (live ==>
                  && jar' != []
                  && jar'[|jar'| - 1] == Cookie(c.name, c.value, c.expires, domain, path, c.sameSite, c.partitioned,
                                                c.secure, c.httpOnly, c.domain.Some? || c.tailmatch))
            && var others := if live then jar'[..|jar'| - 1] else jar';
               o in others <==> o in jar && (o.name != c.name || o.domain != domain || o.path != path)
  {
    var op := Add(url, c, now);
    SurvivingMeans(jar, op, o);
    var kept := Surviving(jar, op);
    if Inserts(op) {
      assert (kept + [Put(op)])[..|kept|] == kept;
    } else {
      assert kept + [] == kept;
    }
  }

  /** A secure cookie from an insecure URL leaves the jar as it was. */
  lemma RefusalLeaves(jar: seq<Cookie>, url: Url, c: Cookie, now: int)
    requires c.secure && !url.https
    ensures Step(jar, Add(url, c, now)) == jar
  {
    NothingKilled(jar, Add(url, c, now));
    assert jar + [] == jar;
  }

  /** A cookie that named no path gets the directory of the URL's path: what comes
      before its last slash, or the root. */
  lemma DefaultPathIsDirectory(segments: seq<string>, path: string) returns (i: nat)
    requires segments != [] && path == Join(segments)
    requires forall j, k | 0 <= j < |segments| && 0 <= k < |segments[j]| :: segments[j][k] != '/'
    ensures i < |path| && path[i] == '/' && forall j | i < j < |path| :: path[j] != '/'
    ensures DefaultPath(segments) == if i == 0 then "/" else path[..i]
  {
    var dir, last := Join(segments[..|segments| - 1]), segments[|segments| - 1];
    i := |dir|;
    assert path == dir + "/" + last;
    assert path[..i] == dir;
    forall j | i < j < |path|
      ensures path[j] != '/'
    {
      assert path[j] == last[j - i - 1];
    }
  }

  /** Where an added cookie is sent: a cookie that named a domain, to that domain and
      its subdomains; another one to the host that set it; either only while it has
      not expired, and a secure one only over https. */
  lemma AddedIsSentWhere(jar: seq<Cookie>, u: Url, c: Cookie, t: int, url: Url, now: int)
    requires (c.secure ==> u.https) && (c.expires.None? || t <= c.expires.value) && !c.tailmatch
    requires Complete(Step(jar, Add(u, c, t)))
    ensures var jar' := Step(jar, Add(u, c, t));
            && jar' != []
            && (jar'[|jar'| - 1] in Selected(jar', url, now) <==>
                  && (c.expires.None? || now < c.expires.value)
                  && (c.secure ==> url.https)
                  && PathMatch(url.path, jar'[|jar'| - 1].path.value)
                  && match c.domain
                     case None => url.host == u.host
                     case Some(domain) =>
                       var d := if domain != "" && domain[0] == '.' then domain[1..] else domain;
                       url.host == d || EndsWith(url.host, "." + d))
  {
    AdditionLeaves(jar, u, c, t, c);
    var jar' := Step(jar, Add(u, c, t));
    var stored := jar'[|jar'| - 1];
    SelectedMeans(jar', url, now, stored);
    if c.domain.Some? {
      TailMatchMeans(url.host, c.domain.value);
    }
  }

  /** The cookie field has `name=value; ` for every cookie selected, in order. */
  lemma RenderedOneMore(cs: seq<Cookie>, c: Cookie)
    ensures Render([]) == ""
    ensures Render(cs + [c])
         == Render(cs) + (c.name + "=" + (if c.value.Some? then c.value.value else "") + "; ")
  {
    assert (cs + [c])[..|cs|] == cs;
  }

  lemma {:induction false} SurvivingKeepsComplete(jar: seq<Cookie>, op: Op)
    requires Complete(jar)
    ensures Complete(Surviving(jar, op))
  {
    if jar != [] {
      SurvivingKeepsComplete(jar[..|jar| - 1], op);
    }
  }

  /** Asking again at the same time changes nothing and gives the same field. */
  lemma {:induction false} FieldIsRepeatable(jar: seq<Cookie>, url: Url, now: int)
    requires Complete(jar)
    ensures var jar' := Surviving(jar, MakeField(url, now));
            && Complete(jar')
            && Surviving(jar', MakeField(url, now)) == jar'
            && Selected(jar', url, now) == Selected(jar, url, now)
  {
    var op := MakeField(url, now);
    SurvivingKeepsComplete(jar, op);
    if jar != [] {
      var init, c := jar[..|jar| - 1], jar[|jar| - 1];
      FieldIsRepeatable(init, url, now);
      if !ExpiredFor(c, now) {
        var jar' := Surviving(jar, op);
        assert jar'[..|jar'| - 1] == Surviving(init, op);
      }
    }
  }

  /** The effect of one more cookie on what survives and on the field. */
  lemma FieldStep(jar: seq<Cookie>, c: Cookie, url: Url, now: int)
    requires Complete(jar + [c])
    ensures Complete(jar)
    ensures Render(Selected(jar + [c], url, now))
         == if !ExpiredFor(c, now) && Matches(url, c)
            then Render(Selected(jar, url, now)) + (c.name + "=" + c.value.GetOr("") + "; ")
            else Render(Selected(jar, url, now))
  {
    assert (jar + [c])[..|jar|] == jar;
    assert (jar + [c])[|jar|] == c;
    var before := Selected(jar, url, now);
    assert (before + [c])[..|before|] == before;
  }

  lemma EraseAt(a: seq<Cookie>, c: Cookie, b: seq<Cookie>)
    ensures (a + ([c] + b))[..|a|] + (a + ([c] + b))[|a| + 1..] == a + b
    ensures a + ([c] + b) == (a + [c]) + b
  {
  }

  /** The loop of make_field: `done` has been gone through, `rest` has not. */
  ghost predicate Walking(done: seq<Cookie>, rest: seq<Cookie>, cookies: seq<Cookie>, it: nat, rs: string,
                          url: Url, now: int)
  {
    && Complete(done) && Complete(rest)
    && cookies == Surviving(done, MakeField(url, now)) + rest
    && it == |Surviving(done, MakeField(url, now))|
    && rs == Render(Selected(done, url, now))
  }

  lemma WalkHere(done: seq<Cookie>, rest: seq<Cookie>, cookies: seq<Cookie>, it: nat, rs: string, url: Url, now: int)
    requires Walking(done, rest, cookies, it, rs, url, now) && it < |cookies|
    ensures rest != [] && cookies[it] == rest[0] && Complete(rest)
    ensures (done + [rest[0]]) + rest[1..] == done + rest
  {
  }

  lemma WalkDrop(done: seq<Cookie>, rest: seq<Cookie>, cookies: seq<Cookie>, it: nat, rs: string, url: Url, now: int)
    requires Walking(done, rest, cookies, it, rs, url, now) && it < |cookies| && rest != []
    requires ExpiredFor(rest[0], now)
    ensures Walking(done + [rest[0]], rest[1..], cookies[..it] + cookies[it + 1..], it, rs, url, now)
  {
    var c := rest[0];
    assert rest == [c] + rest[1..];
    EraseAt(Surviving(done, MakeField(url, now)), c, rest[1..]);
    SurvivingAppend(done, c, MakeField(url, now));
    assert Complete(done + [c]) && Complete(rest[1..]);
    FieldStep(done, c, url, now);
  }

  lemma WalkKeep(done: seq<Cookie>, rest: seq<Cookie>, cookies: seq<Cookie>, it: nat, rs: string, url: Url, now: int)
    requires Walking(done, rest, cookies, it, rs, url, now) && it < |cookies| && rest != []
    requires !ExpiredFor(rest[0], now)
    ensures Complete(rest)
    ensures var c := rest[0];
            var rs' := if Matches(url, c) then rs + (c.name + "=" + c.value.GetOr("") + "; ") else rs;
            Walking(done + [c], rest[1..], cookies, it + 1, rs', url, now)
  {
    var c := rest[0];
    assert rest == [c] + rest[1..];
    EraseAt(Surviving(done, MakeField(url, now)), c, rest[1..]);
    SurvivingAppend(done, c, MakeField(url, now));
    assert Complete(done + [c]) && Complete(rest[1..]);
    FieldStep(done, c, url, now);
  }

  method MakeDefaultPath(segments: seq<string>) returns (path: string)
    ensures path == DefaultPath(segments)
  {
    path := "";
    var end := if segments == [] then 0 else |segments| - 1;
    for i := 0 to end
      invariant path == Join(segments[..i])
    {
      path := path + "/" + segments[i];
      assert segments[..i + 1][..i] == segments[..i];
    }
    if path == "" {
      path := "/";
    }
  }

  class Jar {
    var cookies: seq<Cookie>

    constructor ()
      ensures cookies == After([])
    {
      cookies := [];
    }

    method AddCookie(url: Url, cookie: Cookie, now: int)
      modifies this
      ensures cookies == Step(old(cookies), Add(url, cookie, now))
    {
      ghost var op := Add(url, cookie, now);
      var c := cookie;
      if c.domain.Some? {
        c := c.(tailmatch := true);
      } else {
        c := c.(domain := Some(url.host));
      }
      if c.path.None? {
        var path := MakeDefaultPath(url.segments);
        c := c.(path := Some(path));
      }
      assert c == Stored(url, cookie);
      if c.secure && !url.https {
        NothingKilled(cookies, op);
        return;
      }
      var kept: seq<Cookie> := [];
      for i := 0 to |cookies|
        invariant cookies == old(cookies) && kept == Surviving(cookies[..i], op)
      {
        var o := cookies[i];
        assert cookies[..i + 1] == cookies[..i] + [o];
        SurvivingAppend(cookies[..i], o, op);
        if !(c.name == o.name && c.path == o.path && c.domain == o.domain) {
          kept := kept + [o];
        }
      }
      assert cookies[..|cookies|] == cookies;
      cookies := kept;
      if c.expires.Some? && c.expires.value < now {
        return;
      }
      cookies := cookies + [c];
    }

    /** Drops the expired cookies and renders the matching ones. */
    method MakeCookieField(url: Url, now: int) returns (rs: string)
      requires Complete(cookies)
      modifies this
      ensures cookies == Step(old(cookies), MakeField(url, now))
      ensures rs == Render(Selected(old(cookies), url, now))
    {
      ghost var done: seq<Cookie>, rest := [], cookies;
      rs := "";
      var it := 0;
      while it < |cookies|
        invariant done + rest == old(cookies)
        invariant Walking(done, rest, cookies, it, rs, url, now)
        decreases |rest|
      {
        WalkHere(done, rest, cookies, it, rs, url, now);
        var c := cookies[it];
        if ExpiredFor(c, now) {
          WalkDrop(done, rest, cookies, it, rs, url, now);
          done, rest := done + [c], rest[1..];
          cookies := cookies[..it] + cookies[it + 1..];
          continue;
        }
        WalkKeep(done, rest, cookies, it, rs, url, now);
        done, rest := done + [c], rest[1..];
        if Matches(url, c) {
          rs := rs + (c.name + "=" + c.value.GetOr("") + "; ");
        }
        it := it + 1;
      }
      assert rest == [] && done == old(cookies);
    }

    /** One cookie read from a file: no key is removed. */
    method PushBack(cookie: Cookie)
      modifies this
      ensures cookies == Step(old(cookies), Load(cookie))
    {
      NothingKilled(cookies, Load(cookie));
      cookies := cookies + [cookie];
    }

    method ClearSessionCookies()
      modifies this
      ensures cookies == Step(old(cookies), ClearSession)
    {
      var kept: seq<Cookie> := [];
      for i := 0 to |cookies|
        invariant cookies == old(cookies) && kept == Surviving(cookies[..i], ClearSession)
      {
        assert cookies[..i + 1] == cookies[..i] + [cookies[i]];
        SurvivingAppend(cookies[..i], cookies[i], ClearSession);
        if cookies[i].expires.Some? {
          kept := kept + [cookies[i]];
        }
      }
      assert cookies[..|cookies|] == cookies;
      cookies := kept;
    }
  }

  lemma {:induction false} NothingKilled(jar: seq<Cookie>, op: Op)
    requires op.Load? || (op.Add? && !Accepted(op))
    ensures Surviving(jar, op) == jar
  {
    if jar != [] {
      NothingKilled(jar[..|jar| - 1], op);
      assert jar == jar[..|jar| - 1] + [jar[|jar| - 1]];
    }
  }
}
