/** Parameter segments of a route pattern: `:name(constraint)?` and the like,
    parsed by rules that advance a cursor, and printed back. */
module RouteParam {
  import opened Wrappers

  datatype Error = Syntax | Mismatch

  predicate IsAlpha(c: char) { 'a' <= c <= 'z' || 'A' <= c <= 'Z' }

  predicate IdentChar(c: char) { 'a' <= c <= 'z' || '0' <= c <= '9' || 'A' <= c <= 'Z' || c == '_' }

  predicate ConstraintChar(c: char) { ' ' <= c <= '~' && c != ')' }

  predicate IsModifier(c: char) { c == '?' || c == '*' || c == '+' }

  /** `modifier` and `constraint` are empty when absent. */
  datatype Segment = Segment(ptype: char, name: string, constraint: string, modifier: string)

  /** Names are letters, digits and underscores after a letter; constraints printable
      ASCII without the closing parenthesis. */
  predicate WellFormed(g: Segment) {
    && (g.ptype == ':' || g.ptype == '*')
    && g.name != "" && ('a' <= g.name[0] <= 'z' || 'A' <= g.name[0] <= 'Z')
    && (forall i | 0 <= i < |g.name| ::
          'a' <= g.name[i] <= 'z' || 'A' <= g.name[i] <= 'Z' || '0' <= g.name[i] <= '9' || g.name[i] == '_')
    && (forall i | 0 <= i < |g.constraint| :: ' ' <= g.constraint[i] <= '~' && g.constraint[i] != ')')
    && (g.modifier == "" || g.modifier == "?" || g.modifier == "*" || g.modifier == "+")
  }

  /** The grammar's own notation of a segment. */
  function Print(g: Segment): string {
    [g.ptype] + g.name + ConstraintText(g.constraint) + g.modifier
  }

  function ConstraintText(c: string): string { if c == "" then "" else "(" + c + ")" }

  // ------------------------------------------------------------------ the rules

  /** find_if_not over the identifier characters. */
  method SkipIdent(s: string, from: nat) returns (it: nat)
    requires from <= |s|
    ensures from <= it <= |s| && (it < |s| ==> !IdentChar(s[it]))
    ensures forall i | from <= i < it :: IdentChar(s[i])
  {
    it := from;
    while it != |s| && IdentChar(s[it])
      invariant from <= it <= |s|
      invariant forall i | from <= i < it :: IdentChar(s[i])
    {
      it := it + 1;
    }
  }

  method SkipConstraint(s: string, from: nat) returns (it: nat)
    requires from <= |s|
    ensures from <= it <= |s| && (it < |s| ==> !ConstraintChar(s[it]))
    ensures forall i | from <= i < it :: ConstraintChar(s[i])
  {
    it := from;
    while it != |s| && ConstraintChar(s[it])
      invariant from <= it <= |s|
      invariant forall i | from <= i < it :: ConstraintChar(s[i])
    {
      it := it + 1;
    }
  }

  /** The longest identifier-character run. */
  function IdentRun(s: string): (n: nat)
    ensures n <= |s| && (n < |s| ==> !IdentChar(s[n])) && forall i | 0 <= i < n :: IdentChar(s[i])
  {
    if s == [] || !IdentChar(s[0]) then 0 else 1 + IdentRun(s[1..])
  }

  function ConstraintRun(s: string): (n: nat)
    ensures n <= |s| && (n < |s| ==> !ConstraintChar(s[n])) && forall i | 0 <= i < n :: ConstraintChar(s[i])
  {
    if s == [] || !ConstraintChar(s[0]) then 0 else 1 + ConstraintRun(s[1..])
  }

  /** What the rules accept at the front of a string, and how much of it. */
  function NameLength(s: string): Option<nat> {
    if s == [] || !IsAlpha(s[0]) then None else Some(1 + IdentRun(s[1..]))
  }

  /** Length of the constraint with its parentheses; zero when there is none. */
  function ConstraintLength(s: string): Option<nat> {
    if s == [] || s[0] != '(' then Some(0)
    else
      var n := ConstraintRun(s);
      if n <= 1 || n == |s| || s[n] != ')' then None else Some(n + 1)
  }

  /** The modifier, if any, and the rest. */
  function Modified(v: string): (string, string) {
    var k := if v != [] && IsModifier(v[0]) then 1 else 0;
    (v[..k], v[k..])
  }

  /** Constraint, modifier and rest after the name. */
  function Tail(u: string): Option<(string, (string, string))> {
    match ConstraintLength(u)
    case None => None
    case Some(m) => Some((if m == 0 then "" else u[1..m - 1], Modified(u[m..])))
  }

  function Parsed(s: string): Result<(Segment, string), Error> {
    if s == [] then Err(Syntax)
    else if s[0] != ':' && s[0] != '*' then Err(Mismatch)
    else
      match NameLength(s[1..])
      case None => Err(Syntax)
      case Some(n) =>
        match Tail(s[1..][n..])
        case None => Err(Syntax)
        case Some((c, (m, rest))) => Ok((Segment(s[0], s[1..][..n], c, m), rest))
  }

  method ParseConstraint(s: string, start: nat) returns (r: Result<string, Error>, it: nat)
    requires start <= |s|
    ensures start <= it <= |s|
    ensures match ConstraintLength(s[start..])
            case None => r == Err(Syntax)
            case Some(m) => it == start + m && r == Ok(if m == 0 then "" else s[start..][1..m - 1])
  {
    it := start;
    if it == |s| || s[it] != '(' {
      return Ok(""), it;
    }
    var it0 := it;
    it := SkipConstraint(s, it);
    RunIs(s, it0, it);
    if it - it0 <= 1 {
      return Err(Syntax), it0;
    }
    if it == |s| {
      return Err(Syntax), it0;
    }
    if s[it] != ')' {
      return Err(Syntax), it;
    }
    assert s[it0 + 1..it] == s[start..][1..it - start];
    return Ok(s[it0 + 1..it]), it + 1;
  }

  method ParseName(s: string, start: nat) returns (r: Result<string, Error>, it: nat)
    requires start <= |s|
    ensures start <= it <= |s|
    ensures match NameLength(s[start..])
            case None => r == Err(Syntax)
            case Some(n) => it == start + n && r == Ok(s[start..][..n])
  {
    it := start;
    if it == |s| {
      return Err(Syntax), it;
    }
    if !IsAlpha(s[it]) {
      return Err(Syntax), it;
    }
    it := SkipIdent(s, it + 1);
    IdentRunIs(s, start + 1, it);
    assert s[start..][1..] == s[start + 1..];
    assert s[start..it] == s[start..][..it - start];
    return Ok(s[start..it]), it;
  }

  /** Constraint and modifier after the name. */
  method ParseTail(s: string, start: nat) returns (r: Result<(string, string), Error>, it: nat)
    requires start <= |s|
    ensures start <= it <= |s|
    ensures match Tail(s[start..])
            case None => r == Err(Syntax)
            case Some((c, (m, rest))) => r == Ok((c, m)) && s[it..] == rest
  {
    var constraint;
    constraint, it := ParseConstraint(s, start);
    if constraint.Err? {
      return Err(constraint.error), it;
    }
    assert s[start..][it - start..] == s[it..];
    var modifier := "";
    if it != |s| && IsModifier(s[it]) {
      modifier := [s[it]];
      assert s[it..][..1] == modifier && s[it..][1..] == s[it + 1..];
      it := it + 1;
    } else {
      assert s[it..][..0] == "" && s[it..][0..] == s[it..];
    }
    return Ok((constraint.value, modifier)), it;
  }

  /** The rule for a parameter segment, with the cursor in and out. */
  method ParseSegment(s: string, start: nat) returns (r: Result<Segment, Error>, it: nat)
    requires start <= |s|
    ensures start <= it <= |s|
    ensures match Parsed(s[start..])
            case Err(e) => r == Err(e)
            case Ok((g, rest)) => r == Ok(g) && s[it..] == rest
  {
    it := start;
    if it == |s| {
      return Err(Syntax), it;
    }
    if s[it] != ':' && s[it] != '*' {
      return Err(Mismatch), it;
    }
    var ptype := s[it];
    it := it + 1;
    DropTwice(s, start, start + 1);
    var name, tail;
    name, it := ParseName(s, it);
    if name.Err? {
      return Err(name.error), it;
    }
    DropTwice(s, start + 1, it);
    tail, it := ParseTail(s, it);
    if tail.Err? {
      return Err(tail.error), it;
    }
    return Ok(Segment(ptype, name.value, tail.value.0, tail.value.1)), it;
  }

  lemma DropTwice(s: string, a: nat, b: nat)
    requires a <= b <= |s|
    ensures s[a..][b - a..] == s[b..]
  {
  }

  lemma {:induction false} RunIs(s: string, from: nat, it: nat)
    requires from <= it <= |s| && (it < |s| ==> !ConstraintChar(s[it]))
    requires forall i | from <= i < it :: ConstraintChar(s[i])
    ensures ConstraintRun(s[from..]) == it - from
    decreases it - from
  {
    if from < it {
      RunIs(s, from + 1, it);
      assert s[from..][1..] == s[from + 1..];
    }
  }

  lemma {:induction false} IdentRunIs(s: string, from: nat, it: nat)
    requires from <= it <= |s| && (it < |s| ==> !IdentChar(s[it]))
    requires forall i | from <= i < it :: IdentChar(s[i])
    ensures IdentRun(s[from..]) == it - from
    decreases it - from
  {
    if from < it {
      IdentRunIs(s, from + 1, it);
      assert s[from..][1..] == s[from + 1..];
    }
  }

  // ----------------------------------------------------------------- the inverse

  lemma CutInTwo(u: string, n: nat, a: string, b: string)
    requires n <= |u| && u[..n] == a && u[n..] == b
    ensures u == a + b
  {
  }

  /** What the constraint rule accepts is the notation of a constraint. */
  lemma ConstraintIsSound(u: string)
    requires ConstraintLength(u).Some?
    ensures var n := ConstraintLength(u).value;
            var c := if n == 0 then "" else u[1..n - 1];
            && n <= |u|
            && u[..n] == ConstraintText(c)
            && forall i | 0 <= i < |c| :: ConstraintChar(c[i])
  {
    var n := ConstraintLength(u).value;
    if n > 0 {
      assert u[..n] == "(" + u[1..n - 1] + ")";
    }
  }

  lemma TailIsSound(u: string)
    requires Tail(u).Some?
    ensures var (c, (m, rest)) := Tail(u).value;
            && u == ConstraintText(c) + (m + rest)
            && (forall i | 0 <= i < |c| :: ConstraintChar(c[i]))
            && (m == "" || (|m| == 1 && IsModifier(m[0])))
  {
    var n := ConstraintLength(u).value;
    var (c, (m, rest)) := Tail(u).value;
    ConstraintIsSound(u);
    ModifiedIsSound(u[n..]);
    CutInTwo(u, n, ConstraintText(c), m + rest);
  }

  lemma ModifiedIsSound(v: string)
    ensures var (m, rest) := Modified(v);
            v == m + rest && (m == "" || (|m| == 1 && IsModifier(m[0])))
  {
  }

  lemma NameIsSound(t: string)
    requires NameLength(t).Some?
    ensures var n := NameLength(t).value;
            1 <= n <= |t| && IsAlpha(t[..n][0]) && forall i | 0 <= i < n :: IdentChar(t[..n][i])
  {
    var n := NameLength(t).value;
    assert forall i | 1 <= i < n :: t[i] == t[1..][i - 1];
  }

  lemma PartsAreWellFormed(ptype: char, name: string, c: string, m: string)
    requires ptype == ':' || ptype == '*'
    requires name != "" && IsAlpha(name[0]) && forall i | 0 <= i < |name| :: IdentChar(name[i])
    requires forall i | 0 <= i < |c| :: ConstraintChar(c[i])
    requires m == "" || (|m| == 1 && IsModifier(m[0]))
    ensures WellFormed(Segment(ptype, name, c, m))
  {
  }

  /** Parsing succeeds only on the notation of a well-formed segment, followed by
      the rest that is handed back. */
  lemma ParseIsSound(s: string)
    requires Parsed(s).Ok?
    ensures WellFormed(Parsed(s).value.0)
    ensures s == Print(Parsed(s).value.0) + Parsed(s).value.1
  {
    var t := s[1..];
    var n := NameLength(t).value;
    var (c, (m, rest)) := Tail(t[n..]).value;
    NameIsSound(t);
    TailIsSound(t[n..]);
    PartsAreWellFormed(s[0], t[..n], c, m);
    Rejoin(s, n, ConstraintText(c), m, rest);
  }

  lemma Rejoin(s: string, n: nat, c: string, m: string, rest: string)
    requires s != [] && n <= |s[1..]| && s[1..][n..] == c + (m + rest)
    ensures s == ([s[0]] + s[1..][..n] + c + m) + rest
  {
    Regroup([s[0]], s[1..][..n], c, m, rest);
    assert s == [s[0]] + (s[1..][..n] + s[1..][n..]);
  }

  lemma Regroup(a: string, b: string, c: string, d: string, e: string)
    ensures a + (b + (c + (d + e))) == (a + b + c + d) + e
  {
  }

  /** Which error is reported: a mismatch exactly for another first character. */
  lemma ErrorKinds(s: string)
    ensures Parsed(s) == Err(Mismatch) <==> s != "" && s[0] != ':' && s[0] != '*'
    ensures s == "" ==> Parsed(s) == Err(Syntax)
  {
  }

  /** The rest does not begin with something that would belong to the segment. */
  predicate Ends(g: Segment, rest: string) {
    || rest == "" || g.modifier != ""
    || (&& rest[0] != '?' && rest[0] != '*' && rest[0] != '+'
        && (g.constraint != "" || !(|| 'a' <= rest[0] <= 'z' || 'A' <= rest[0] <= 'Z' || '0' <= rest[0] <= '9'
                                    || rest[0] == '_' || rest[0] == '(')))
  }

  lemma {:induction false} IdentRunOf(a: string, b: string)
    requires forall i | 0 <= i < |a| :: IdentChar(a[i])
    ensures IdentRun(a + b) == |a| + IdentRun(b)
  {
    if a == [] {
      assert a + b == b;
    } else {
      assert (a + b)[1..] == a[1..] + b;
      IdentRunOf(a[1..], b);
    }
  }

  lemma {:induction false} ConstraintRunOf(a: string, b: string)
    requires forall i | 0 <= i < |a| :: ConstraintChar(a[i])
    ensures ConstraintRun(a + b) == |a| + ConstraintRun(b)
  {
    if a == [] {
      assert a + b == b;
    } else {
      assert (a + b)[1..] == a[1..] + b;
      ConstraintRunOf(a[1..], b);
    }
  }

  /** The name of a printed segment, in front of `u`, is read back unless `u` goes
      on with identifier characters. */
  lemma NameReadsBack(name: string, u: string)
    requires name != "" && IsAlpha(name[0]) && forall i | 0 <= i < |name| :: IdentChar(name[i])
    ensures NameLength(name + u) == Some(|name| + IdentRun(u))
  {
    assert (name + u)[1..] == name[1..] + u;
    IdentRunOf(name[1..], u);
  }

  /** A constraint in parentheses, cut up again. */
  lemma ConstraintCut(c: string, v: string)
    requires c != ""
    ensures var u := ConstraintText(c) + v;
            && |u| == |c| + 2 + |v|
            && u == ("(" + c) + (")" + v)
            && u[|c| + 1] == ')'
            && u[1..|c| + 1] == c
            && u[|c| + 2..] == v
  {
  }

  lemma OpenRun(c: string, v: string)
    requires forall i | 0 <= i < |c| :: ConstraintChar(c[i])
    ensures ConstraintRun(("(" + c) + (")" + v)) == |c| + 1
  {
    var open, close := "(" + c, ")" + v;
    forall i | 0 <= i < |open|
      ensures ConstraintChar(open[i])
    {
      if i > 0 {
        assert open[i] == c[i - 1];
      }
    }
    ConstraintRunOf(open, close);
    assert close[0] == ')';
  }

  lemma ConstraintReadsBack(c: string, v: string)
    requires c != "" && forall i | 0 <= i < |c| :: ConstraintChar(c[i])
    ensures var u := ConstraintText(c) + v;
            ConstraintLength(u) == Some(|c| + 2) && u[1..|c| + 1] == c && u[|c| + 2..] == v
  {
    ConstraintCut(c, v);
    OpenRun(c, v);
  }

  lemma ModifierReadsBack(m: string, rest: string)
    requires m == "" || (|m| == 1 && IsModifier(m[0]))
    ensures Modified(m + rest) == (m, rest) <==> m != "" || rest == "" || !IsModifier(rest[0])
  {
    var v := m + rest;
    if m != "" {
      assert v[..1] == m && v[1..] == rest;
    } else {
      assert v == rest;
      assert v[0..] == v;
    }
  }

  lemma TailReadsBackIff(c: string, m: string, rest: string)
    requires forall i | 0 <= i < |c| :: ConstraintChar(c[i])
    requires m == "" || (|m| == 1 && IsModifier(m[0]))
    ensures Tail(ConstraintText(c) + (m + rest)) == Some((c, (m, rest)))
       <==> m != "" || rest == "" || (!IsModifier(rest[0]) && (c != "" || rest[0] != '('))
  {
    ModifierReadsBack(m, rest);
    var v := m + rest;
    if c != "" {
      ConstraintReadsBack(c, v);
    } else {
      assert "" + v == v;
      if v != [] && v[0] == '(' {
        if Tail(v).Some? {
          assert Tail(v).value.0 != "";
        }
      } else {
        assert v[0..] == v;
      }
    }
  }

  /** A printed name in front of `u` is read back, unless identifier characters
      follow, and then the tail decides. */
  lemma ParsedAfterName(ptype: char, name: string, u: string)
    requires ptype == ':' || ptype == '*'
    requires name != "" && IsAlpha(name[0]) && forall i | 0 <= i < |name| :: IdentChar(name[i])
    ensures var p := Parsed([ptype] + (name + u));
            if IdentRun(u) > 0 then p.Ok? ==> |p.value.0.name| > |name|
            else match Tail(u)
                 case None => p == Err(Syntax)
                 case Some((c, (m, rest))) => p == Ok((Segment(ptype, name, c, m), rest))
  {
    var t := name + u;
    assert ([ptype] + t)[1..] == t;
    NameReadsBack(name, u);
    if IdentRun(u) == 0 {
      assert t[..|name|] == name && t[|name|..] == u;
    }
  }

  /** Printing a well-formed segment in front of a rest and parsing gives both
      back exactly when the rest does not extend the segment. */
  lemma PrintThenParseIff(g: Segment, rest: string)
    requires WellFormed(g)
    ensures Parsed(Print(g) + rest) == Ok((g, rest)) <==> Ends(g, rest)
  {
    var u := ConstraintText(g.constraint) + (g.modifier + rest);
    assert Print(g) + rest == [g.ptype] + (g.name + u) by {
      Regroup([g.ptype], g.name, ConstraintText(g.constraint), g.modifier, rest);
    }
    ParsedAfterName(g.ptype, g.name, u);
    TailReadsBackIff(g.constraint, g.modifier, rest);
    FirstOfTail(g.constraint, g.modifier, rest);
  }

  /** Only a rest right after the name can go on with identifier characters. */
  lemma FirstOfTail(c: string, m: string, rest: string)
    requires m == "" || (|m| == 1 && IsModifier(m[0]))
    ensures IdentRun(ConstraintText(c) + (m + rest)) == 0
       <==> c != "" || m != "" || rest == "" || !IdentChar(rest[0])
  {
    if c == "" {
      assert ConstraintText(c) + (m + rest) == m + rest;
      if m == "" {
        assert m + rest == rest;
      }
    }
  }
}
