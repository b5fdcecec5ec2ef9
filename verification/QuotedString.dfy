/** Quoted strings of a header value (section 5.6.4 of RFC 9110): the scanner that
    finds the closing quote and the unquoter that drops the quotes and escapes. */
module QuotedString {
  import opened Wrappers

  /** The source does not check the end after a backslash or after the loop: where
      it would read past the end the result is `ReadsPastEnd`. */
  datatype Scan = Accepted(end: nat) | NeedMore | Mismatch | ReadsPastEnd

  /** A sequence of escape units, a backslash with any character or a plain
      character, none of which is a bare quote. */
  ghost predicate Body(t: string) {
    || t == []
    || (t[0] == '\\' && |t| >= 2 && Body(t[2..]))
    || (t[0] != '\\' && t[0] != '"' && Body(t[1..]))
  }

  /** Position of the first quote that no backslash escapes. */
  function Close(t: string): Option<nat> {
    if t == [] then None
    else if t[0] == '"' then Some(0)
    else if t[0] != '\\' then Shifted(Close(t[1..]), 1)
    else if |t| == 1 then None
    else Shifted(Close(t[2..]), 2)
  }

  function Shifted(o: Option<nat>, n: nat): Option<nat> {
    if o.None? then None else Some(o.value + n)
  }

  /** The closing quote is the one that ends a body. */
  lemma {:induction false} CloseIff(t: string, n: nat)
    ensures Close(t) == Some(n) <==> n < |t| && t[n] == '"' && Body(t[..n])
  {
    if t != [] && t[0] != '"' {
      var k := if t[0] == '\\' then 2 else 1;
      if k <= |t| && k <= n {
        CloseIff(t[k..], n - k);
        if n <= |t| {
          assert t[..n][k..] == t[k..][..n - k];
        }
      } else if k == 2 && n == 1 && |t| >= 2 {
        assert !Body(t[..1]);
      }
    } else if t != [] && 0 < n <= |t| {
      assert !Body(t[..n]);
    }
  }

  /** The scanner: the slice it accepts runs from the opening quote through the
      quote that ends the body; it reads past the end exactly when there is none. */
  method ScanQuoted(s: string, start: nat) returns (r: Scan)
    requires start <= |s|
    ensures r.NeedMore? <==> start == |s|
    ensures r.Mismatch? <==> start < |s| && s[start] != '"'
    ensures r.ReadsPastEnd? <==> start < |s| && s[start] == '"' && Close(s[start + 1..]).None?
    ensures r.Accepted? ==> start < |s| && s[start] == '"' && Close(s[start + 1..]) == Some(r.end - 2 - start)
  {
    var it := start;
    if it == |s| {
      return NeedMore;
    }
    if s[it] != '"' {
      return Mismatch;
    }
    it := it + 1;
    while it < |s| && s[it] != '"'
      invariant start + 1 <= it <= |s| + 1
      invariant it == |s| + 1 ==> Close(s[start + 1..]).None?
      invariant it <= |s| ==> Close(s[start + 1..]) == Shifted(Close(s[it..]), it - start - 1)
      decreases |s| + 1 - it
    {
      if s[it] == '\\' {
        assert it + 2 <= |s| ==> s[it..][2..] == s[it + 2..];
        it := it + 1;
      } else {
        assert s[it..][1..] == s[it + 1..];
      }
      it := it + 1;
    }
    if it >= |s| {
      return ReadsPastEnd;
    }
    return Accepted(it + 1);
  }

  /** An unterminated text and a dangling backslash, after the opening quote. */
  lemma UnterminatedExamples()
    ensures Close("ab") == None && Close("ab\\") == None
  {
    assert "ab"[1..] == "b" && "b"[1..] == "";
    assert "ab\\"[1..] == "b\\" && "b\\"[1..] == "\\";
  }

  /** On which the scanner reads past the end. */
  method UnterminatedIsOverread() returns (r: Scan, r': Scan)
    ensures r == ReadsPastEnd && r' == ReadsPastEnd
  {
    UnterminatedExamples();
    assert "\"ab"[1..] == "ab" && "\"ab\\"[1..] == "ab\\";
    r := ScanQuoted("\"ab", 0);
    r' := ScanQuoted("\"ab\\", 0);
  }

  /** Every backslash has a character after it. */
  predicate NoDangling(t: string) {
    || t == []
    || (if t[0] == '\\' then |t| >= 2 && NoDangling(t[2..]) else NoDangling(t[1..]))
  }

  function Unescaped(t: string): string
    requires NoDangling(t)
  {
    if t == [] then ""
    else if t[0] == '\\' then [t[1]] + Unescaped(t[2..])
    else [t[0]] + Unescaped(t[1..])
  }

  /** The unquoter; `None` where it would read past the end of the slice. */
  method UnquoteString(sv: string) returns (r: Option<string>)
    requires |sv| >= 2
    ensures r == var t := sv[1..|sv| - 1]; if NoDangling(t) then Some(Unescaped(t)) else None
  {
    var t := sv[1..];
    t := t[..|t| - 1];
    assert t == sv[1..|sv| - 1];
    var rs := "";
    var it := 0;
    while it < |t|
      invariant 0 <= it <= |t|
      invariant NoDangling(t) <==> NoDangling(t[it..])
      invariant NoDangling(t) ==> rs + Unescaped(t[it..]) == Unescaped(t)
    {
      ghost var at := it;
      if t[it] == '\\' {
        it := it + 1;
        if it == |t| {
          return None;
        }
      }
      UnitStep(t, at, rs);
      rs := rs + [t[it]];
      it := it + 1;
    }
    assert t[it..] == "";
    assert rs + "" == rs;
    return Some(rs);
  }

  lemma UnitStep(t: string, at: nat, rs: string)
    requires at < |t| && (t[at] == '\\' ==> at + 1 < |t|)
    ensures var k := if t[at] == '\\' then 1 else 0;
            && (NoDangling(t[at..]) <==> NoDangling(t[at + k + 1..]))
            && (NoDangling(t[at..]) ==> rs + Unescaped(t[at..]) == (rs + [t[at + k]]) + Unescaped(t[at + k + 1..]))
  {
    var k := if t[at] == '\\' then 1 else 0;
    var u, v := t[at..], t[at + k + 1..];
    assert u[k + 1..] == v && u[k] == t[at + k] && u[0] == t[at];
    if NoDangling(u) {
      assert Unescaped(u) == [t[at + k]] + Unescaped(v);
      assert rs + ([t[at + k]] + Unescaped(v)) == (rs + [t[at + k]]) + Unescaped(v);
    }
  }

  lemma {:induction false} BodyHasNoDangling(t: string)
    requires Body(t)
    ensures NoDangling(t)
  {
    if t != [] {
      BodyHasNoDangling(t[if t[0] == '\\' then 2 else 1..]);
    }
  }

  /** Whatever slice the scanner accepts, the unquoter stays inside it. */
  lemma AcceptedIsUnquotable(s: string, n: nat)
    requires Close(s) == Some(n)
    ensures n < |s| && NoDangling(s[..n])
  {
    CloseIff(s, n);
    BodyHasNoDangling(s[..n]);
  }

  // ----------------------------------------------------------------- round trip

  function Escaped(s: string): string {
    if s == [] then ""
    else (if s[0] == '"' || s[0] == '\\' then ['\\', s[0]] else [s[0]]) + Escaped(s[1..])
  }

  function Quote(s: string): string { "\"" + Escaped(s) + "\"" }

  lemma {:induction false} EscapedReadsBack(s: string)
    ensures Body(Escaped(s)) && NoDangling(Escaped(s)) && Unescaped(Escaped(s)) == s
  {
    if s != [] {
      EscapedReadsBack(s[1..]);
      var e := Escaped(s);
      assert e[if s[0] == '"' || s[0] == '\\' then 2 else 1..] == Escaped(s[1..]);
    }
  }

  /** Scanning a quoted text in front of anything finds just that quoted text, and
      unquoting gives the text. */
  method QuoteRoundTrip(s: string, rest: string) returns (end: nat, text: string)
    ensures end == |Quote(s)| && (Quote(s) + rest)[..end] == Quote(s)
    ensures text == s
  {
    var all := Quote(s) + rest;
    EscapedReadsBack(s);
    assert all[1..] == Escaped(s) + ("\"" + rest);
    assert all[1..][..|Escaped(s)|] == Escaped(s);
    CloseIff(all[1..], |Escaped(s)|);
    var r := ScanQuoted(all, 0);
    end := r.end;
    assert all[..end] == Quote(s);
    assert Quote(s)[1..|Quote(s)| - 1] == Escaped(s);
    var u := UnquoteString(all[..end]);
    text := u.value;
  }
}
