/** Set-Cookie attributes and the name prefixes, and what a `__Host-` cookie is
    then worth in the jar. The tokens of the header are taken as given. */
module SetCookie {
  import opened Wrappers
  import opened CookieJar

  /** One attribute; `time` is the instant its value denotes as a date or an age,
      none where the conversion of an age throws. */
  datatype Attr = Attr(name: string, value: Option<string>, time: Option<int>)

  datatype Error = Invalid | BadNumber

  function Lower(c: char): char { if 'A' <= c <= 'Z' then (c as int + 32) as char else c }

  /** Case-insensitive equality. */
  predicate Is(a: string, b: string) {
    |a| == |b| && forall i | 0 <= i < |a| :: Lower(a[i]) == Lower(b[i])
  }

  datatype Kind = Expires | MaxAge | Domain | Path | SameSiteAttr | Partitioned | Secure | HttpOnly | Unknown

  /** The attribute a name stands for. */
  function KindOf(name: string): Kind {
    if Is(name, "Expires") then Expires
    else if Is(name, "Max-Age") then MaxAge
    else if Is(name, "Domain") then Domain
    else if Is(name, "Path") then Path
    else if Is(name, "SameSite") then SameSiteAttr
    else if Is(name, "Partitioned") then Partitioned
    else if Is(name, "Secure") then Secure
    else if Is(name, "HttpOnly") then HttpOnly
    else Unknown
  }

  function SameSiteOf(v: string): Option<SameSite> {
    if Is(v, "Strict") then Some(Strict)
    else if Is(v, "Lax") then Some(Lax)
    else if Is(v, "None") then Some(NoRestriction)
    else None
  }

  /** No attribute touches the name, the value or the tail-match flag. */
  function Apply(c: Cookie, a: Attr): (r: Result<Cookie, Error>)
    ensures r.Ok? ==> SameIdentity(c, r.value)
  {
    match KindOf(a.name)
    case Expires =>
      if a.value.None? then Err(Invalid) else Ok(c.(expires := Some(a.time.GetOr(0))))
    case MaxAge =>
      if a.value.None? then Err(Invalid) else if a.time.None? then Err(BadNumber) else Ok(c.(expires := a.time))
    case Domain =>
      if a.value.None? then Err(Invalid) else Ok(c.(domain := a.value))
    case Path =>
      if a.value.None? then Err(Invalid) else Ok(c.(path := a.value))
    case SameSiteAttr =>
      var v := SameSiteOf(a.value.GetOr(""));
      if v.None? then Err(Invalid) else Ok(c.(sameSite := v))
    case Partitioned => Ok(c.(partitioned := true))
    case Secure => Ok(c.(secure := true))
    case HttpOnly => Ok(c.(httpOnly := true))
    case Unknown => Ok(c)
  }

  predicate SameIdentity(a: Cookie, b: Cookie) {
    a.name == b.name && a.value == b.value && a.tailmatch == b.tailmatch
  }

  function ApplyAll(c: Cookie, attrs: seq<Attr>): (r: Result<Cookie, Error>)
    ensures r.Ok? ==> SameIdentity(c, r.value)
    decreases |attrs|
  {
    if attrs == [] then Ok(c)
    else
      match ApplyAll(c, attrs[..|attrs| - 1])
      case Err(e) => Err(e)
      case Ok(c') => Apply(c', attrs[|attrs| - 1])
  }

  function Blank(name: string, value: Option<string>): Cookie {
    Cookie(name, value, None, None, None, None, false, false, false, false)
  }

  /** The requirements of the `__Secure-` and `__Host-` name prefixes. */
  predicate PrefixOk(c: Cookie) {
    && (StartsWith(c.name, "__Secure-") ==> c.secure)
    && (StartsWith(c.name, "__Host-") ==> c.secure && c.path == Some("/") && c.domain == None)
  }

  function Parsed(name: string, value: Option<string>, attrs: seq<Attr>): Result<Cookie, Error> {
    match ApplyAll(Blank(name, value), attrs)
    case Err(e) => Err(e)
    case Ok(c) => if PrefixOk(c) then Ok(c) else Err(Invalid)
  }

  method ParseCookie(name: string, value: Option<string>, attrs: seq<Attr>) returns (r: Result<Cookie, Error>)
    ensures r == Parsed(name, value, attrs)
  {
    var rs := Blank(name, value);
    for i := 0 to |attrs|
      invariant ApplyAll(Blank(name, value), attrs[..i]) == Ok(rs)
    {
      assert attrs[..i + 1][..i] == attrs[..i];
      var next := Apply(rs, attrs[i]);
      assert ApplyAll(Blank(name, value), attrs[..i + 1]) == next;
      if next.Err? {
        FirstErrorStays(Blank(name, value), attrs, i + 1);
        return next;
      }
      rs := next.value;
    }
    assert attrs[..|attrs|] == attrs;
    if StartsWith(rs.name, "__Secure-") {
      if !rs.secure {
        return Err(Invalid);
      }
    }
    if StartsWith(rs.name, "__Host-") {
      if !rs.secure {
        return Err(Invalid);
      }
      if rs.path.None? || rs.path.value != "/" {
        return Err(Invalid);
      }
      if rs.domain.Some? {
        return Err(Invalid);
      }
    }
    return Ok(rs);
  }

  lemma {:induction false} FirstErrorStays(c: Cookie, attrs: seq<Attr>, n: nat)
    requires n <= |attrs| && ApplyAll(c, attrs[..n]).Err?
    ensures ApplyAll(c, attrs) == ApplyAll(c, attrs[..n])
    decreases |attrs|
  {
    if n == |attrs| {
      assert attrs[..n] == attrs;
    } else {
      var init := attrs[..|attrs| - 1];
      assert init[..n] == attrs[..n];
      FirstErrorStays(c, init, n);
    }
  }

  /** The last attribute of a kind, if there is one. */
  ghost function Last(attrs: seq<Attr>, kind: Kind): Option<Attr> {
    if attrs == [] then None
    else if KindOf(attrs[|attrs| - 1].name) == kind then Some(attrs[|attrs| - 1])
    else Last(attrs[..|attrs| - 1], kind)
  }

  /** The last attribute that sets the expiry, of either kind. */
  ghost function LastTimed(attrs: seq<Attr>): Option<Attr> {
    if attrs == [] then None
    else
      var a := attrs[|attrs| - 1];
      if KindOf(a.name) == Expires || KindOf(a.name) == MaxAge then Some(a) else LastTimed(attrs[..|attrs| - 1])
  }

  ghost predicate NamedBy(c: Cookie, attrs: seq<Attr>) {
    && c.domain == (if Last(attrs, Domain).Some? then Last(attrs, Domain).value.value else None)
    && c.path == (if Last(attrs, Path).Some? then Last(attrs, Path).value.value else None)
    && (c.secure <==> Last(attrs, Secure).Some?)
    && (c.httpOnly <==> Last(attrs, HttpOnly).Some?)
    && (c.partitioned <==> Last(attrs, Partitioned).Some?)
    && c.sameSite == match Last(attrs, SameSiteAttr) { case None => None case Some(a) => SameSiteOf(a.value.GetOr("")) }
    && c.expires == match LastTimed(attrs) { case None => None case Some(a) => Some(a.time.GetOr(0)) }
  }

  /** The order in which the names are tried does not matter: no two of equal
      length begin alike. */
  lemma KindIsTheName(n: string)
    ensures KindOf(n) == Expires <==> Is(n, "Expires")
    ensures KindOf(n) == MaxAge <==> Is(n, "Max-Age")
    ensures KindOf(n) == Domain <==> Is(n, "Domain")
    ensures KindOf(n) == Path <==> Is(n, "Path")
    ensures KindOf(n) == SameSiteAttr <==> Is(n, "SameSite")
    ensures KindOf(n) == Partitioned <==> Is(n, "Partitioned")
    ensures KindOf(n) == Secure <==> Is(n, "Secure")
    ensures KindOf(n) == HttpOnly <==> Is(n, "HttpOnly")
  {
    if n != [] {
      assert "Expires"[0] == 'E' && "Max-Age"[0] == 'M' && "Domain"[0] == 'D';
      assert "Secure"[0] == 'S' && "SameSite"[0] == 'S' && "HttpOnly"[0] == 'H';
    }
  }

  lemma LastOfMore(attrs: seq<Attr>, a: Attr, kind: Kind)
    ensures Last(attrs + [a], kind) == if KindOf(a.name) == kind then Some(a) else Last(attrs, kind)
    ensures LastTimed(attrs + [a])
         == if KindOf(a.name) == Expires || KindOf(a.name) == MaxAge then Some(a) else LastTimed(attrs)
  {
    assert (attrs + [a])[..|attrs|] == attrs;
  }

  lemma OneMoreAttribute(c: Cookie, attrs: seq<Attr>, a: Attr)
    requires NamedBy(c, attrs) && Apply(c, a).Ok?
    ensures NamedBy(Apply(c, a).value, attrs + [a])
  {
    LastOfMore(attrs, a, Domain);
    LastOfMore(attrs, a, Path);
    LastOfMore(attrs, a, Secure);
    LastOfMore(attrs, a, HttpOnly);
    LastOfMore(attrs, a, Partitioned);
    LastOfMore(attrs, a, SameSiteAttr);
  }

  /** If all attributes are taken, the last of each name counts. */
  ghost predicate LastCounts(c: Cookie, attrs: seq<Attr>) {
    ApplyAll(c, attrs).Ok? ==> NamedBy(ApplyAll(c, attrs).value, attrs)
  }

  lemma LastCountsOneMore(c: Cookie, attrs: seq<Attr>, a: Attr)
    requires LastCounts(c, attrs)
    ensures LastCounts(c, attrs + [a])
  {
    assert (attrs + [a])[..|attrs|] == attrs;
    if ApplyAll(c, attrs + [a]).Ok? {
      OneMoreAttribute(ApplyAll(c, attrs).value, attrs, a);
    }
  }

  lemma {:induction false} LastAlwaysCounts(name: string, value: Option<string>, attrs: seq<Attr>)
    ensures LastCounts(Blank(name, value), attrs)
    decreases |attrs|
  {
    if attrs != [] {
      LastAlwaysCounts(name, value, attrs[..|attrs| - 1]);
      LastCountsOneMore(Blank(name, value), attrs[..|attrs| - 1], attrs[|attrs| - 1]);
      assert attrs[..|attrs| - 1] + [attrs[|attrs| - 1]] == attrs;
    }
  }

  /** Each attribute says what its name says and the last of a name counts; of
      Expires and Max-Age together the last counts. */
  lemma LastAttributeCounts(name: string, value: Option<string>, attrs: seq<Attr>)
    requires ApplyAll(Blank(name, value), attrs).Ok?
    ensures NamedBy(ApplyAll(Blank(name, value), attrs).value, attrs)
  {
    LastAlwaysCounts(name, value, attrs);
  }

  // ------------------------------------------------- which headers are accepted

  /** Names and values are compared up to the case of ASCII letters. */
  lemma IsMeans(a: string, b: string)
    ensures Is(a, b) <==>
              && |a| == |b|
              && forall i | 0 <= i < |a| ::
                   || a[i] == b[i]
                   || ('A' <= a[i] <= 'Z' && b[i] as int == a[i] as int + 32)
                   || ('A' <= b[i] <= 'Z' && a[i] as int == b[i] as int + 32)
  {
  }

  lemma SameSiteIs(v: string)
    ensures SameSiteOf(v) == Some(Strict) <==> Is(v, "Strict")
    ensures SameSiteOf(v) == Some(Lax) <==> Is(v, "Lax")
    ensures SameSiteOf(v) == Some(NoRestriction) <==> Is(v, "None")
    ensures SameSiteOf(v) == None <==> !Is(v, "Strict") && !Is(v, "Lax") && !Is(v, "None")
  {
  }

  /** An attribute without a fault: those that need a value have one, an age is a
      number, and same-site is one of three words. */
  predicate Faultless(a: Attr) {
    && (Is(a.name, "Expires") || Is(a.name, "Max-Age") || Is(a.name, "Domain") || Is(a.name, "Path") ==>
          a.value.Some?)
    && (Is(a.name, "Max-Age") ==> a.time.Some?)
    && (Is(a.name, "SameSite") ==>
          a.value.Some? && (Is(a.value.value, "Strict") || Is(a.value.value, "Lax") || Is(a.value.value, "None")))
  }

  lemma AppliesIff(c: Cookie, a: Attr)
    ensures Apply(c, a).Ok? <==> Faultless(a)
  {
    KindIsTheName(a.name);
    SameSiteIs(a.value.GetOr(""));
  }

  lemma {:induction false} AllApplyIff(c: Cookie, attrs: seq<Attr>)
    ensures ApplyAll(c, attrs).Ok? <==> forall i | 0 <= i < |attrs| :: Faultless(attrs[i])
    decreases |attrs|
  {
    if attrs != [] {
      var init, a := attrs[..|attrs| - 1], attrs[|attrs| - 1];
      AllApplyIff(c, init);
      if ApplyAll(c, init).Ok? {
        AppliesIff(ApplyAll(c, init).value, a);
      }
      assert forall i | 0 <= i < |init| :: init[i] == attrs[i];
    }
  }

  /** A header is accepted exactly if no attribute has a fault, a `__Secure-` cookie
      is marked secure, and a `__Host-` cookie is so too, has the path `/` and names
      no domain. */
  lemma AcceptedIff(name: string, value: Option<string>, attrs: seq<Attr>)
    ensures Parsed(name, value, attrs).Ok? <==>
              && (forall i | 0 <= i < |attrs| :: Faultless(attrs[i]))
              && (StartsWith(name, "__Secure-") ==> Last(attrs, Secure).Some?)
              && (StartsWith(name, "__Host-") ==>
                    && Last(attrs, Secure).Some?
                    && Last(attrs, Path).Some? && Last(attrs, Path).value.value == Some("/")
                    && Last(attrs, Domain).None?)
  {
    AllApplyIff(Blank(name, value), attrs);
    if ApplyAll(Blank(name, value), attrs).Ok? {
      LastAttributeCounts(name, value, attrs);
      LastHasValue(attrs);
    }
  }

  lemma {:induction false} LastHasValue(attrs: seq<Attr>)
    requires forall i | 0 <= i < |attrs| :: Faultless(attrs[i])
    ensures Last(attrs, Domain).Some? ==> Last(attrs, Domain).value.value.Some?
  {
    if attrs != [] {
      KindIsTheName(attrs[|attrs| - 1].name);
      assert Faultless(attrs[|attrs| - 1]);
      LastHasValue(attrs[..|attrs| - 1]);
    }
  }

  /** The expiry as section 5.3 of RFC 6265 wants it: Max-Age takes precedence. */
  ghost function StandardExpires(attrs: seq<Attr>): Option<int> {
    match Last(attrs, MaxAge)
    case Some(a) => Some(a.time.GetOr(0))
    case None => match Last(attrs, Expires) { case None => None case Some(a) => Some(a.time.GetOr(0)) }
  }

  lemma {:induction false} LastTimedIsOneOf(attrs: seq<Attr>)
    ensures LastTimed(attrs).None? <==> Last(attrs, MaxAge).None? && Last(attrs, Expires).None?
    ensures LastTimed(attrs).Some? ==> LastTimed(attrs) == Last(attrs, KindOf(LastTimed(attrs).value.name))
    ensures LastTimed(attrs).Some? ==>
              KindOf(LastTimed(attrs).value.name) == Expires || KindOf(LastTimed(attrs).value.name) == MaxAge
  {
    if attrs != [] {
      LastTimedIsOneOf(attrs[..|attrs| - 1]);
    }
  }

  /** The code departs from that exactly when both are present, the last of the two
      is an Expires, and their times differ. */
  lemma ExpiryIsStandardIff(name: string, value: Option<string>, attrs: seq<Attr>)
    requires ApplyAll(Blank(name, value), attrs).Ok?
    ensures ApplyAll(Blank(name, value), attrs).value.expires == StandardExpires(attrs)
       <==> !(&& Last(attrs, MaxAge).Some? && Last(attrs, Expires).Some?
              && LastTimed(attrs) == Last(attrs, Expires)
              && Last(attrs, Expires).value.time.GetOr(0) != Last(attrs, MaxAge).value.time.GetOr(0))
  {
    LastAttributeCounts(name, value, attrs);
    LastTimedIsOneOf(attrs);
  }

  /** A later Expires overrides Max-Age. */
  lemma LaterExpiresWins()
    ensures var attrs := [Attr("Max-Age", Some("100"), Some(100)), Attr("Expires", Some("..."), Some(5))];
            && ApplyAll(Blank("a", None), attrs).Ok?
            && ApplyAll(Blank("a", None), attrs).value.expires == Some(5)
            && StandardExpires(attrs) == Some(100)
  {
    var m, e := Attr("Max-Age", Some("100"), Some(100)), Attr("Expires", Some("..."), Some(5));
    assert [m, e][..1] == [m] && [m][..0] == [];
    KindIsTheName("Max-Age");
    KindIsTheName("Expires");
    assert Is("Max-Age", "Max-Age") && Is("Expires", "Expires");
    assert ApplyAll(Blank("a", None), [m]) == Ok(Blank("a", None).(expires := Some(100)));
    LastOfMore([m], e, MaxAge);
    LastOfMore([], m, MaxAge);
    assert [] + [m] == [m] && [m] + [e] == [m, e];
  }

  /** A `__Host-` cookie accepted from a header and added for URL `u` is, as long
      as it is alive in the jar's history, sent exactly with unexpired requests
      over https to the very same host, whatever the path. */
  lemma HostCookieIsPinned(name: string, value: Option<string>, attrs: seq<Attr>, ops: seq<Op>, i: nat, u: Url, t: int,
                           url: Url, now: int)
    requires Parsed(name, value, attrs).Ok? && StartsWith(name, "__Host-")
    requires i < |ops| && ops[i] == Add(u, Parsed(name, value, attrs).value, t) && Alive(ops, i)
    requires Complete(After(ops))
    requires url.path == "" || url.path[0] == '/'
    ensures var c := Stored(u, Parsed(name, value, attrs).value);
            && c in After(ops)
            && (c in Selected(After(ops), url, now) <==> url.https && url.host == u.host && !ExpiredFor(c, now))
  {
    var c := Stored(u, Parsed(name, value, attrs).value);
    JarIsItsHistory(ops);
    AliveIsPresent(ops, i, |ops|);
    SelectedMeans(After(ops), url, now, c);
    assert c.path == Some("/") && c.domain == Some(u.host) && !c.tailmatch && c.secure;
    assert url.path != "" ==> url.path[..1] == "/";
    assert "/"[0..] == "/";
  }

  /** No such cookie is ever accepted over an insecure connection. */
  lemma HostCookieNeedsHttps(name: string, value: Option<string>, attrs: seq<Attr>, u: Url, t: int)
    requires Parsed(name, value, attrs).Ok? && StartsWith(name, "__Host-") && !u.https
    ensures !Inserts(Add(u, Parsed(name, value, attrs).value, t))
  {
  }

  predicate NoEmptyPath(op: Op) { op.Add? || op.Load? ==> op.cookie.path != Some("") }

  /** Histories whose cookies name no empty path keep the jar complete. */
  lemma JarStaysComplete(ops: seq<Op>)
    requires forall i | 0 <= i < |ops| :: BringsKey(ops[i]) && NoEmptyPath(ops[i])
    ensures Complete(After(ops))
  {
    JarIsItsHistory(ops);
    forall k | 0 <= k < |After(ops)|
      ensures After(ops)[k].domain.Some? && After(ops)[k].path.Some? && After(ops)[k].path.value != ""
    {
      var i := Origin(ops, |ops|, k);
      assert BringsKey(ops[i]) && NoEmptyPath(ops[i]);
    }
  }
}
