/**
 * `RepositoryName`: strip, bound the length, split on `/` and match each component, against the single
 * whole-name regular expression of the OCI Distribution Specification v1.1, section "Pulling manifests".
 */
module NameGrammar {

  const MAX_LENGTH := 255

  // ---------- regular expressions ----------

  datatype Re =
    | Alnum
    | Lit(c: char)
    | Cat(first: Re, second: Re)
    | Alt(left: Re, right: Re)
    | Star(body: Re)

  predicate IsAlnum(c: char) {
    'a' <= c <= 'z' || '0' <= c <= '9'
  }

  /** The string is in the language of the expression: what `fullmatch` decides. */
  predicate Matches(re: Re, s: string)
    decreases re, |s|
  {
    match re
    case Alnum => |s| == 1 && IsAlnum(s[0])
    case Lit(c) => s == [c]
    case Cat(a, b) => exists i :: 0 <= i <= |s| && Matches(a, s[..i]) && Matches(b, s[i..])
    case Alt(a, b) => Matches(a, s) || Matches(b, s)
    case Star(a) => s == "" || exists i :: 0 < i <= |s| && Matches(a, s[..i]) && Matches(re, s[i..])
  }

  function Plus(re: Re): Re {
    Cat(re, Star(re))
  }

  /** `\.|_|__|-+` */
  const SEPARATOR := Alt(Lit('.'), Alt(Lit('_'), Alt(Cat(Lit('_'), Lit('_')), Plus(Lit('-')))))

  const RUN := Plus(Alnum)

  /** `[a-z0-9]+((\.|_|__|-+)[a-z0-9]+)*` */
  const COMPONENT := Cat(RUN, Star(Cat(SEPARATOR, RUN)))

  const SLASHED := Star(Cat(Lit('/'), COMPONENT))

  /** The specification's expression for a whole name: a component, then any number of slashed components. */
  const NAME := Cat(COMPONENT, SLASHED)

  // ---------- splitting on the component separator ----------

  /** Python's `split("/")`: never empty, and an empty string between every two neighbouring slashes. */
  function Split(s: string): (parts: seq<string>)
    ensures parts != []
  {
    if s == "" then [""]
    else
      var rest := Split(s[1..]);
      if s[0] == '/' then [""] + rest else [[s[0]] + rest[0]] + rest[1..]
  }

  function Join(parts: seq<string>): string
    requires parts != []
  {
    if |parts| == 1 then parts[0] else parts[0] + "/" + Join(parts[1..])
  }

  lemma {:induction false} SplitWhole(s: string)
    requires '/' !in s
    ensures Split(s) == [s]
  {
    if s != "" {
      assert s == [s[0]] + s[1..];
      SplitWhole(s[1..]);
      assert Split(s[1..])[1..] == [];
    }
  }

  lemma {:induction false} SplitAtSlash(p: string, q: string)
    requires '/' !in p
    ensures Split(p + "/" + q) == [p] + Split(q)
  {
    var s := p + "/" + q;
    if p == "" {
      assert s[1..] == q;
    } else {
      assert p == [p[0]] + p[1..] && s[0] == p[0];
      assert s[1..] == p[1..] + "/" + q;
      SplitAtSlash(p[1..], q);
      assert Split(s[1..])[1..] == Split(q);
    }
  }

  lemma {:induction false} JoinOfSplit(s: string)
    ensures Join(Split(s)) == s
    ensures forall i :: 0 <= i < |Split(s)| ==> '/' !in Split(s)[i]
  {
    if s != "" {
      JoinOfSplit(s[1..]);
      var rest := Split(s[1..]);
      assert s == [s[0]] + s[1..];
      if s[0] == '/' {
        assert Split(s) == [""] + rest;
        assert Split(s)[1..] == rest;
        assert Join(Split(s)) == "" + "/" + Join(rest);
      } else {
        var head := [s[0]] + rest[0];
        assert Split(s) == [head] + rest[1..];
        assert Split(s)[1..] == rest[1..];
        if |rest| > 1 {
          assert head + "/" + Join(rest[1..]) == [s[0]] + (rest[0] + "/" + Join(rest[1..]));
        }
      }
    }
  }

  lemma {:induction false} SplitOfJoin(parts: seq<string>)
    requires parts != [] && forall i :: 0 <= i < |parts| ==> '/' !in parts[i]
    ensures Split(Join(parts)) == parts
  {
    if |parts| == 1 {
      SplitWhole(parts[0]);
    } else {
      SplitOfJoin(parts[1..]);
      SplitAtSlash(parts[0], Join(parts[1..]));
    }
  }

  /** Splitting is the inverse of joining, and its parts are slash-free: it is the one such list. */
  lemma {:induction false} SplitInvertsJoin(s: string, parts: seq<string>)
    requires parts != []
    ensures Split(s) == parts <==> Join(parts) == s && forall i :: 0 <= i < |parts| ==> '/' !in parts[i]
  {
    if Split(s) == parts {
      JoinOfSplit(s);
    } else if Join(parts) == s && forall i :: 0 <= i < |parts| ==> '/' !in parts[i] {
      SplitOfJoin(parts);
    }
  }

  // ---------- component by component is the whole-name grammar ----------

  predicate IsValidComponent(component: string) {
    Matches(COMPONENT, component)
  }

  predicate AllValid(components: seq<string>) {
    forall i :: 0 <= i < |components| ==> IsValidComponent(components[i])
  }

  predicate NoSlashIn(re: Re) {
    match re
    case Alnum => true
    case Lit(c) => c != '/'
    case Cat(a, b) => NoSlashIn(a) && NoSlashIn(b)
    case Alt(a, b) => NoSlashIn(a) && NoSlashIn(b)
    case Star(a) => NoSlashIn(a)
  }

  lemma {:induction false} MatchesNoSlash(re: Re, s: string)
    requires NoSlashIn(re) && Matches(re, s)
    ensures '/' !in s
    decreases re, |s|
  {
    match re
    case Alnum =>
    case Lit(c) =>
    case Cat(a, b) =>
      var i :| 0 <= i <= |s| && Matches(a, s[..i]) && Matches(b, s[i..]);
      MatchesNoSlash(a, s[..i]);
      MatchesNoSlash(b, s[i..]);
      assert s == s[..i] + s[i..];
    case Alt(a, b) =>
      if Matches(a, s) { MatchesNoSlash(a, s); } else { MatchesNoSlash(b, s); }
    case Star(a) =>
      if s != "" {
        var i :| 0 < i <= |s| && Matches(a, s[..i]) && Matches(re, s[i..]);
        MatchesNoSlash(a, s[..i]);
        MatchesNoSlash(re, s[i..]);
        assert s == s[..i] + s[i..];
      }
  }

  lemma CatIntro(a: Re, b: Re, s: string, t: string)
    requires Matches(a, s) && Matches(b, t)
    ensures Matches(Cat(a, b), s + t)
  {
    assert (s + t)[..|s|] == s && (s + t)[|s|..] == t;
  }

  lemma StarIntro(a: Re, s: string, t: string)
    requires s != "" && Matches(a, s) && Matches(Star(a), t)
    ensures Matches(Star(a), s + t)
  {
    assert (s + t)[..|s|] == s && (s + t)[|s|..] == t;
  }

  lemma CatElim(a: Re, b: Re, s: string) returns (x: string, y: string)
    requires Matches(Cat(a, b), s)
    ensures s == x + y && Matches(a, x) && Matches(b, y)
  {
    var i :| 0 <= i <= |s| && Matches(a, s[..i]) && Matches(b, s[i..]);
    x, y := s[..i], s[i..];
  }

  lemma StarElim(a: Re, s: string) returns (x: string, y: string)
    requires Matches(Star(a), s) && s != ""
    ensures s == x + y && x != "" && Matches(a, x) && Matches(Star(a), y)
  {
    var i :| 0 < i <= |s| && Matches(a, s[..i]) && Matches(Star(a), s[i..]);
    x, y := s[..i], s[i..];
  }

  lemma ComponentHasNoSlash(s: string)
    requires IsValidComponent(s)
    ensures '/' !in s
  {
    MatchesNoSlash(COMPONENT, s);
  }

  lemma NameSplits(c: string, tail: string)
    requires IsValidComponent(c) && (tail == "" || (tail[0] == '/' && AllValid(Split(tail[1..]))))
    ensures AllValid(Split(c + tail))
  {
    ComponentHasNoSlash(c);
    if tail == "" {
      SplitWhole(c);
      assert c + tail == c;
    } else {
      SplitAtSlash(c, tail[1..]);
      assert c + tail == c + "/" + tail[1..];
    }
  }

  /** A slashed tail is nothing, or a slash and a list of valid components. */
  lemma {:induction false} SlashedSplits(t: string)
    requires Matches(SLASHED, t)
    ensures t == "" || (t[0] == '/' && AllValid(Split(t[1..])))
    decreases |t|
  {
    if t != "" {
      var first, rest := StarElim(Cat(Lit('/'), COMPONENT), t);
      var slash, c := CatElim(Lit('/'), COMPONENT, first);
      assert slash == "/" && t == "/" + (c + rest);
      SlashedSplits(rest);
      NameSplits(c, rest);
    }
  }

  lemma Associate(s: string, t: string, u: string)
    ensures (s + t) + u == s + (t + u)
  {
  }

  /** One more element, with its mark, in front of a marked list. */
  lemma PrefixMarked(mark: Re, a: Re, first: string, m: string, t: string)
    requires Matches(a, first) && m != "" && Matches(mark, m) && Matches(Cat(a, Star(Cat(mark, a))), t)
    ensures Matches(Cat(a, Star(Cat(mark, a))), first + (m + t))
  {
    var c, tail := CatElim(a, Star(Cat(mark, a)), t);
    CatIntro(mark, a, m, c);
    StarIntro(Cat(mark, a), m + c, tail);
    Associate(m, c, tail);
    CatIntro(a, Star(Cat(mark, a)), first, m + t);
  }

  lemma {:induction false} ValidPartsMatch(parts: seq<string>)
    requires parts != [] && AllValid(parts)
    ensures Matches(NAME, Join(parts))
    decreases |parts|
  {
    if |parts| == 1 {
      CatIntro(COMPONENT, SLASHED, parts[0], "");
      assert parts[0] + "" == parts[0];
    } else {
      ValidPartsMatch(parts[1..]);
      PrefixMarked(Lit('/'), COMPONENT, parts[0], "/", Join(parts[1..]));
      Associate(parts[0], "/", Join(parts[1..]));
    }
  }

  /**
   * Grammar equivalence. For every string, splitting on `/` and matching each component accepts exactly the
   * language of the specification's one expression for whole names.
   */
  lemma GrammarEquivalence(s: string)
    ensures AllValid(Split(s)) <==> Matches(NAME, s)
  {
    if AllValid(Split(s)) {
      JoinOfSplit(s);
      ValidPartsMatch(Split(s));
    }
    if Matches(NAME, s) {
      var i :| 0 <= i <= |s| && Matches(COMPONENT, s[..i]) && Matches(SLASHED, s[i..]);
      SlashedSplits(s[i..]);
      NameSplits(s[..i], s[i..]);
      assert s == s[..i] + s[i..];
    }
  }

  // ---------- a component has one reading ----------

  /** Alphanumeric runs joined by separators. */
  datatype Parts = Last(run: string) | More(run: string, sep: string, rest: Parts)

  predicate IsRun(s: string) {
    s != "" && forall i :: 0 <= i < |s| ==> IsAlnum(s[i])
  }

  predicate IsDashes(s: string) {
    s != "" && forall i :: 0 <= i < |s| ==> s[i] == '-'
  }

  predicate IsSeparator(s: string) {
    s == "." || s == "_" || s == "__" || IsDashes(s)
  }

  predicate WellFormed(p: Parts) {
    match p
    case Last(run) => IsRun(run)
    case More(run, sep, rest) => IsRun(run) && IsSeparator(sep) && WellFormed(rest)
  }

  function Render(p: Parts): string {
    match p
    case Last(run) => run
    case More(run, sep, rest) => run + sep + Render(rest)
  }

  lemma {:induction false} StarOfAlnum(s: string)
    ensures Matches(Star(Alnum), s) <==> s == "" || IsRun(s)
    decreases |s|
  {
    if s != "" {
      StarOfAlnum(s[1..]);
      if IsRun(s) {
        assert Matches(Alnum, s[..1]);
      }
      if Matches(Star(Alnum), s) {
        var i :| 0 < i <= |s| && Matches(Alnum, s[..i]) && Matches(Star(Alnum), s[i..]);
        assert i == 1 && s == [s[0]] + s[1..];
      }
    }
  }

  lemma {:induction false} StarOfDash(s: string)
    ensures Matches(Star(Lit('-')), s) <==> s == "" || IsDashes(s)
    decreases |s|
  {
    if s != "" {
      StarOfDash(s[1..]);
      if IsDashes(s) {
        assert Matches(Lit('-'), s[..1]);
      }
      if Matches(Star(Lit('-')), s) {
        var i :| 0 < i <= |s| && Matches(Lit('-'), s[..i]) && Matches(Star(Lit('-')), s[i..]);
        assert i == 1 && s == [s[0]] + s[1..];
      }
    }
  }

  lemma RunLanguage(s: string)
    ensures Matches(RUN, s) <==> IsRun(s)
  {
    if IsRun(s) {
      StarOfAlnum(s[1..]);
      assert Matches(Alnum, s[..1]) && Matches(Star(Alnum), s[1..]);
    }
    if Matches(RUN, s) {
      var i :| 0 <= i <= |s| && Matches(Alnum, s[..i]) && Matches(Star(Alnum), s[i..]);
      StarOfAlnum(s[i..]);
      assert i == 1 && s == [s[0]] + s[1..];
    }
  }

  lemma DashesLanguage(s: string)
    ensures Matches(Plus(Lit('-')), s) <==> IsDashes(s)
  {
    if IsDashes(s) {
      StarOfDash(s[1..]);
      assert Matches(Lit('-'), s[..1]) && Matches(Star(Lit('-')), s[1..]);
    }
    if Matches(Plus(Lit('-')), s) {
      var i :| 0 <= i <= |s| && Matches(Lit('-'), s[..i]) && Matches(Star(Lit('-')), s[i..]);
      StarOfDash(s[i..]);
      assert i == 1 && s == [s[0]] + s[1..];
    }
  }

  lemma SeparatorLanguage(s: string)
    ensures Matches(SEPARATOR, s) <==> IsSeparator(s)
  {
    DashesLanguage(s);
    var last := Alt(Cat(Lit('_'), Lit('_')), Plus(Lit('-')));
    assert Matches(SEPARATOR, s) <==> s == ['.'] || Matches(Alt(Lit('_'), last), s);
    assert Matches(Alt(Lit('_'), last), s) <==> s == ['_'] || Matches(last, s);
    var double := Cat(Lit('_'), Lit('_'));
    if s == "__" {
      assert s[..1] == "_" && s[1..] == "_";
      assert Matches(double, s);
    }
    if Matches(double, s) {
      var i :| 0 <= i <= |s| && Matches(Lit('_'), s[..i]) && Matches(Lit('_'), s[i..]);
      assert s == s[..i] + s[i..];
    }
  }

  const JOINED := Star(Cat(SEPARATOR, RUN))

  /** A separator in front of a joined list is one more joined element. */
  lemma JoinOneMore(a: Re, b: Re, sep: string, t: string)
    requires sep != "" && Matches(a, sep) && Matches(Cat(b, Star(Cat(a, b))), t)
    ensures Matches(Star(Cat(a, b)), sep + t)
  {
    var run, tail := CatElim(b, Star(Cat(a, b)), t);
    CatIntro(a, b, sep, run);
    StarIntro(Cat(a, b), sep + run, tail);
    Associate(sep, run, tail);
  }

  lemma {:induction false} RenderMatches(p: Parts)
    requires WellFormed(p)
    ensures Matches(COMPONENT, Render(p))
  {
    RunLanguage(p.run);
    match p
    case Last(run) =>
      CatIntro(RUN, JOINED, run, "");
      assert run + "" == run;
    case More(run, sep, rest) =>
      RenderMatches(rest);
      SeparatorLanguage(sep);
      JoinOneMore(SEPARATOR, RUN, sep, Render(rest));
      CatIntro(RUN, JOINED, run, sep + Render(rest));
      assert run + (sep + Render(rest)) == run + sep + Render(rest);
  }

  lemma {:induction false} Decompose(run: string, tail: string) returns (p: Parts)
    requires IsRun(run) && Matches(JOINED, tail)
    ensures WellFormed(p) && Render(p) == run + tail
    decreases |tail|
  {
    if tail == "" {
      p := Last(run);
      assert run + tail == run;
    } else {
      var first, last := StarElim(Cat(SEPARATOR, RUN), tail);
      var sep, next := CatElim(SEPARATOR, RUN, first);
      assert tail == sep + (next + last);
      SeparatorLanguage(sep);
      RunLanguage(next);
      var rest := Decompose(next, last);
      p := More(run, sep, rest);
      assert run + (sep + (next + last)) == run + sep + (next + last);
    }
  }

  lemma {:induction false} RunThenOther(a: string, x: string, b: string, y: string, alnum: bool)
    requires a + x == b + y
    requires forall i :: 0 <= i < |a| ==> IsAlnum(a[i]) == alnum
    requires forall i :: 0 <= i < |b| ==> IsAlnum(b[i]) == alnum
    requires x != "" ==> IsAlnum(x[0]) != alnum
    requires y != "" ==> IsAlnum(y[0]) != alnum
    ensures a == b && x == y
  {
    assert forall i :: 0 <= i < |a| ==> (a + x)[i] == a[i];
    assert forall i :: 0 <= i < |b| ==> (b + y)[i] == b[i];
    assert x != "" ==> (a + x)[|a|] == x[0];
    assert y != "" ==> (b + y)[|b|] == y[0];
    assert |a| == |b|;
    assert a == (a + x)[..|a|] && b == (b + y)[..|b|];
    assert x == (a + x)[|a|..] && y == (b + y)[|b|..];
  }

  lemma SeparatorNotAlnum(s: string)
    requires IsSeparator(s)
    ensures s != "" && forall i :: 0 <= i < |s| ==> !IsAlnum(s[i])
  {
  }

  lemma RenderStartsAlnum(p: Parts)
    requires WellFormed(p)
    ensures Render(p) != "" && IsAlnum(Render(p)[0])
  {
  }

  /** Two decompositions of the same component are the same decomposition. */
  lemma {:induction false} DecompositionUnique(p: Parts, q: Parts)
    requires WellFormed(p) && WellFormed(q) && Render(p) == Render(q)
    ensures p == q
  {
    var x := if p.More? then p.sep + Render(p.rest) else "";
    var y := if q.More? then q.sep + Render(q.rest) else "";
    assert Render(p) == p.run + x && Render(q) == q.run + y;
    if p.More? { SeparatorNotAlnum(p.sep); }
    if q.More? { SeparatorNotAlnum(q.sep); }
    RunThenOther(p.run, x, q.run, y, true);
    if p.More? && q.More? {
      RenderStartsAlnum(p.rest);
      RenderStartsAlnum(q.rest);
      RunThenOther(p.sep, Render(p.rest), q.sep, Render(q.rest), false);
      DecompositionUnique(p.rest, q.rest);
    }
  }

  /** A string is a valid component exactly when it decomposes into runs and separators, and then in one way. */
  lemma ComponentDecomposes(s: string)
    ensures IsValidComponent(s) <==> exists p :: WellFormed(p) && Render(p) == s
    ensures forall p, q :: WellFormed(p) && WellFormed(q) && Render(p) == s && Render(q) == s ==> p == q
  {
    if IsValidComponent(s) {
      var i :| 0 <= i <= |s| && Matches(RUN, s[..i]) && Matches(JOINED, s[i..]);
      RunLanguage(s[..i]);
      var p := Decompose(s[..i], s[i..]);
      assert s[..i] + s[i..] == s;
      assert WellFormed(p) && Render(p) == s;
    }
    forall p | WellFormed(p) && Render(p) == s
      ensures IsValidComponent(s)
    {
      RenderMatches(p);
    }
    forall p, q | WellFormed(p) && WellFormed(q) && Render(p) == s && Render(q) == s
      ensures p == q
    {
      DecompositionUnique(p, q);
    }
  }

  // ---------- reading a name from left to right ----------

  datatype Reading = InRun | OneUnderscore | Dashes | NeedAlnum

  /** A reader of names, character by character, that knows nothing of expressions and splitting. */
  predicate Reads(at: Reading, s: string)
    decreases |s|
  {
    if s == "" then at == InRun
    else if 'a' <= s[0] <= 'z' || '0' <= s[0] <= '9' then Reads(InRun, s[1..])
    else
      match at
      case InRun =>
        if s[0] == '_' then Reads(OneUnderscore, s[1..])
        else if s[0] == '-' then Reads(Dashes, s[1..])
        else (s[0] == '.' || s[0] == '/') && Reads(NeedAlnum, s[1..])
      case OneUnderscore => s[0] == '_' && Reads(NeedAlnum, s[1..])
      case Dashes => s[0] == '-' && Reads(Dashes, s[1..])
      case NeedAlnum => false
  }

  lemma {:induction false} ReadsRun(at: Reading, run: string, s: string)
    requires IsRun(run)
    ensures Reads(at, run + s) == Reads(InRun, s)
    decreases |run|
  {
    assert (run + s)[0] == run[0];
    assert (run + s)[1..] == run[1..] + s;
    if |run| == 1 {
      assert run[1..] + s == s;
    } else {
      ReadsRun(InRun, run[1..], s);
    }
  }

  lemma {:induction false} ReadsDashes(dashes: string, s: string)
    requires dashes == "" || IsDashes(dashes)
    requires s != "" && IsAlnum(s[0])
    ensures Reads(Dashes, dashes + s) == Reads(NeedAlnum, s)
    decreases |dashes|
  {
    if dashes == "" {
      assert dashes + s == s;
    } else {
      assert (dashes + s)[1..] == dashes[1..] + s;
      ReadsDashes(dashes[1..], s);
    }
  }

  lemma ReadsSeparator(sep: string, s: string)
    requires IsSeparator(sep) && s != "" && IsAlnum(s[0])
    ensures Reads(InRun, sep + s) == Reads(NeedAlnum, s)
  {
    assert (sep + s)[0] == sep[0] && (sep + s)[1..] == sep[1..] + s;
    if IsDashes(sep) {
      ReadsDashes(sep[1..], s);
    } else if sep == "__" {
      assert sep[1..] + s == "_" + s && ("_" + s)[1..] == s;
    } else {
      assert sep[1..] + s == s;
    }
  }

  lemma {:induction false} ReadsComponent(p: Parts, s: string)
    requires WellFormed(p)
    ensures Reads(NeedAlnum, Render(p) + s) == Reads(InRun, s)
  {
    match p
    case Last(run) => ReadsRun(NeedAlnum, run, s);
    case More(run, sep, rest) =>
      RenderStartsAlnum(rest);
      assert Render(p) + s == run + (sep + (Render(rest) + s));
      ReadsRun(NeedAlnum, run, sep + (Render(rest) + s));
      ReadsSeparator(sep, Render(rest) + s);
      ReadsComponent(rest, s);
  }

  lemma ReadsSlashed(p: Parts, rest: string)
    requires WellFormed(p) && Reads(NeedAlnum, rest)
    ensures Reads(NeedAlnum, Render(p) + ("/" + rest))
  {
    ReadsComponent(p, "/" + rest);
    assert ("/" + rest)[1..] == rest;
  }

  lemma {:induction false} ReadsParts(parts: seq<string>)
    requires parts != [] && AllValid(parts)
    ensures Reads(NeedAlnum, Join(parts))
    decreases |parts|
  {
    ComponentDecomposes(parts[0]);
    var p :| WellFormed(p) && Render(p) == parts[0];
    if |parts| == 1 {
      ReadsComponent(p, "");
      assert Render(p) + "" == Join(parts);
    } else {
      ReadsParts(parts[1..]);
      ReadsSlashed(p, Join(parts[1..]));
      Associate(parts[0], "/", Join(parts[1..]));
    }
  }

  lemma RunIsName(run: string)
    requires IsRun(run)
    ensures Matches(NAME, run)
  {
    assert Render(Last(run)) == run;
    RenderMatches(Last(run));
    CatIntro(COMPONENT, SLASHED, run, "");
    assert run + "" == run;
  }

  /** Another element and separator in front of a joined list with a tail. */
  lemma PrefixJoined(a: Re, b: Re, u: Re, run: string, sep: string, t: string)
    requires sep != "" && Matches(a, sep) && Matches(b, run)
    requires Matches(Cat(Cat(b, Star(Cat(a, b))), u), t)
    ensures Matches(Cat(Cat(b, Star(Cat(a, b))), u), run + (sep + t))
  {
    var list := Cat(b, Star(Cat(a, b)));
    var c, tail := CatElim(list, u, t);
    JoinOneMore(a, b, sep, c);
    CatIntro(b, Star(Cat(a, b)), run, sep + c);
    CatIntro(list, u, run + (sep + c), tail);
    Associate(run, sep + c, tail);
    Associate(sep, c, tail);
  }

  lemma RunBeforeName(run: string, sep: string, t: string)
    requires IsRun(run) && IsSeparator(sep) && Matches(NAME, t)
    ensures Matches(NAME, run + (sep + t))
  {
    RunLanguage(run);
    SeparatorLanguage(sep);
    PrefixJoined(SEPARATOR, RUN, SLASHED, run, sep, t);
  }

  lemma RunBeforeSlash(run: string, t: string)
    requires IsRun(run) && Matches(NAME, t)
    ensures Matches(NAME, run + ("/" + t))
  {
    assert Render(Last(run)) == run;
    RenderMatches(Last(run));
    PrefixMarked(Lit('/'), COMPONENT, run, "/", t);
  }

  /** Dashes end where a run begins. */
  lemma {:induction false} DashesEnd(s: string) returns (dashes: string, t: string)
    requires Reads(Dashes, s)
    ensures s == dashes + t && (dashes == "" || IsDashes(dashes)) && Reads(NeedAlnum, t)
    decreases |s|
  {
    if s[0] == '-' {
      var more, rest := DashesEnd(s[1..]);
      dashes, t := "-" + more, rest;
      assert s == [s[0]] + s[1..];
    } else {
      dashes, t := "", s;
    }
  }

  /** What is read after a run, when it is not more of it: a separator or a slash, and then a name. */
  lemma ReadSeparator(s: string) returns (sep: string, t: string)
    requires s != "" && !IsAlnum(s[0]) && Reads(InRun, s)
    ensures s == sep + t && sep != "" && (IsSeparator(sep) || sep == "/") && Reads(NeedAlnum, t)
  {
    assert s == [s[0]] + s[1..];
    if s[0] == '-' {
      var dashes, rest := DashesEnd(s[1..]);
      sep, t := "-" + dashes, rest;
    } else if s[0] == '_' && s[1] == '_' {
      sep, t := "__", s[2..];
    } else {
      sep, t := [s[0]], s[1..];
    }
  }

  lemma {:induction false} ReadIsName(run: string, s: string)
    requires Reads(if run == "" then NeedAlnum else InRun, s) && (run == "" || IsRun(run))
    ensures Matches(NAME, run + s)
    decreases |s|
  {
    if s == "" {
      assert run + s == run;
      RunIsName(run);
    } else if IsAlnum(s[0]) {
      ReadIsName(run + [s[0]], s[1..]);
      Associate(run, [s[0]], s[1..]);
      assert s == [s[0]] + s[1..];
    } else {
      var sep, t := ReadSeparator(s);
      ReadIsName("", t);
      assert "" + t == t;
      if sep == "/" {
        RunBeforeSlash(run, t);
      } else {
        RunBeforeName(run, sep, t);
      }
    }
  }

  /**
   * The grammar, read off character by character: a string is in the language of the whole-name expression
   * exactly when a reader that starts by needing a letter or digit gets to its end inside a run.
   */
  lemma NameReads(s: string)
    ensures Matches(NAME, s) <==> Reads(NeedAlnum, s)
  {
    if Matches(NAME, s) {
      GrammarEquivalence(s);
      JoinOfSplit(s);
      ReadsParts(Split(s));
    }
    if Reads(NeedAlnum, s) {
      ReadIsName("", s);
      assert "" + s == s;
    }
  }

  // ---------- the value object ----------

  datatype Constructed = Accepted(value: string) | TooLong | Invalid

  function StripLeft(isSpace: char -> bool, s: string): string {
    if s != "" && isSpace(s[0]) then StripLeft(isSpace, s[1..]) else s
  }

  function StripRight(isSpace: char -> bool, s: string): string {
    if s != "" && isSpace(s[|s| - 1]) then StripRight(isSpace, s[..|s| - 1]) else s
  }

  function Strip(isSpace: char -> bool, s: string): string {
    StripRight(isSpace, StripLeft(isSpace, s))
  }

  /** `RepositoryName(raw)`; isSpace is what `str.strip` strips. */
  function RepositoryName(isSpace: char -> bool, raw: string): Constructed {
    var normalized := Strip(isSpace, raw);
    if |normalized| > MAX_LENGTH then TooLong
    else if AllValid(Split(normalized)) then Accepted(normalized)
    else Invalid
  }

  predicate Stripped(isSpace: char -> bool, s: string) {
    s == "" || (!isSpace(s[0]) && !isSpace(s[|s| - 1]))
  }

  predicate AllSpace(isSpace: char -> bool, s: string) {
    forall i :: 0 <= i < |s| ==> isSpace(s[i])
  }

  lemma PrependSplits(s: string, l: string, m: string)
    requires s != "" && s[1..] == l + m
    ensures s == ([s[0]] + l) + m
  {
    assert s == [s[0]] + s[1..];
  }

  lemma AppendSplits(s: string, m: string, r: string)
    requires s != "" && s[..|s| - 1] == m + r
    ensures s == m + (r + [s[|s| - 1]])
  {
    assert s == s[..|s| - 1] + [s[|s| - 1]];
  }

  lemma {:induction false} StripLeftSplits(isSpace: char -> bool, s: string) returns (l: string)
    ensures AllSpace(isSpace, l) && s == l + StripLeft(isSpace, s)
    ensures StripLeft(isSpace, s) != "" ==> !isSpace(StripLeft(isSpace, s)[0])
  {
    if s != "" && isSpace(s[0]) {
      var inner := StripLeftSplits(isSpace, s[1..]);
      l := [s[0]] + inner;
      PrependSplits(s, inner, StripLeft(isSpace, s[1..]));
    } else {
      l := "";
    }
  }

  lemma {:induction false} StripRightSplits(isSpace: char -> bool, s: string) returns (r: string)
    ensures AllSpace(isSpace, r) && s == StripRight(isSpace, s) + r
    ensures StripRight(isSpace, s) != "" ==> !isSpace(StripRight(isSpace, s)[|StripRight(isSpace, s)| - 1])
  {
    if s != "" && isSpace(s[|s| - 1]) {
      var k := |s| - 1;
      var inner := StripRightSplits(isSpace, s[..k]);
      r := inner + [s[k]];
      AppendSplits(s, StripRight(isSpace, s[..k]), inner);
    } else {
      r := "";
    }
  }

  /** Stripping removes only surrounding whitespace, all of it, and leaves a stripped string alone. */
  lemma StripMeaning(isSpace: char -> bool, s: string)
    ensures Stripped(isSpace, Strip(isSpace, s))
    ensures exists l, r :: AllSpace(isSpace, l) && AllSpace(isSpace, r) && s == l + Strip(isSpace, s) + r
    ensures Stripped(isSpace, s) ==> Strip(isSpace, s) == s
  {
    var l := StripLeftSplits(isSpace, s);
    var m := StripLeft(isSpace, s);
    var r := StripRightSplits(isSpace, m);
    assert s == l + Strip(isSpace, s) + r;
    if Strip(isSpace, s) != "" {
      assert m[0] == Strip(isSpace, s)[0];
    }
  }

  /** Whitespace, whatever it is taken to be, meets no alphanumeric. */
  ghost predicate SpaceApart(isSpace: char -> bool) {
    forall c :: IsAlnum(c) ==> !isSpace(c)
  }

  /** A component begins and ends alphanumeric. */
  lemma {:induction false} ComponentEnds(p: Parts)
    requires WellFormed(p)
    ensures Render(p) != "" && IsAlnum(Render(p)[0]) && IsAlnum(Render(p)[|Render(p)| - 1])
  {
    if p.More? {
      ComponentEnds(p.rest);
    }
  }

  lemma {:induction false} JoinEnds(parts: seq<string>)
    requires parts != [] && AllValid(parts)
    ensures Join(parts) != "" && IsAlnum(Join(parts)[0]) && IsAlnum(Join(parts)[|Join(parts)| - 1])
    decreases |parts|
  {
    ComponentDecomposes(parts[0]);
    var p :| WellFormed(p) && Render(p) == parts[0];
    ComponentEnds(p);
    if |parts| > 1 {
      JoinEnds(parts[1..]);
    }
  }

  /** Construction accepts exactly the strings whose stripped form is at most 255 characters of the language. */
  lemma ConstructionExact(isSpace: char -> bool, raw: string, value: string)
    ensures RepositoryName(isSpace, raw) == Accepted(value)
      <==> value == Strip(isSpace, raw) && |value| <= 255 && Reads(NeedAlnum, value)
    ensures RepositoryName(isSpace, raw) == TooLong <==> |Strip(isSpace, raw)| > 255
  {
    GrammarEquivalence(Strip(isSpace, raw));
    NameReads(Strip(isSpace, raw));
  }

  lemma LegalNameStripped(isSpace: char -> bool, value: string)
    requires SpaceApart(isSpace) && Matches(NAME, value)
    ensures Strip(isSpace, value) == value
  {
    GrammarEquivalence(value);
    JoinOfSplit(value);
    JoinEnds(Split(value));
    StripMeaning(isSpace, value);
  }

  /** A name once accepted is accepted again unchanged, and a legal name is never rewritten. */
  lemma ConstructionStable(isSpace: char -> bool, raw: string, value: string)
    ensures RepositoryName(isSpace, raw) == Accepted(value) ==> RepositoryName(isSpace, value) == Accepted(value)
    ensures SpaceApart(isSpace) && |value| <= MAX_LENGTH && Matches(NAME, value)
      ==> RepositoryName(isSpace, value) == Accepted(value)
  {
    ConstructionExact(isSpace, raw, value);
    ConstructionExact(isSpace, value, value);
    StripMeaning(isSpace, raw);
    StripMeaning(isSpace, Strip(isSpace, raw));
    NameReads(value);
    if SpaceApart(isSpace) && Matches(NAME, value) {
      LegalNameStripped(isSpace, value);
    }
  }

  // ---------- what legal names are made of ----------

  /** The characters of the grammar: none of them has an upper case to fold. */
  predicate InAlphabet(c: char) {
    IsAlnum(c) || c in {'.', '_', '-', '/'}
  }

  predicate LitsInAlphabet(re: Re) {
    match re
    case Alnum => true
    case Lit(c) => InAlphabet(c)
    case Cat(a, b) => LitsInAlphabet(a) && LitsInAlphabet(b)
    case Alt(a, b) => LitsInAlphabet(a) && LitsInAlphabet(b)
    case Star(a) => LitsInAlphabet(a)
  }

  lemma {:induction false} MatchesAlphabet(re: Re, s: string)
    requires LitsInAlphabet(re) && Matches(re, s)
    ensures forall i :: 0 <= i < |s| ==> InAlphabet(s[i])
    decreases re, |s|
  {
    match re
    case Alnum =>
    case Lit(c) =>
    case Cat(a, b) =>
      var i :| 0 <= i <= |s| && Matches(a, s[..i]) && Matches(b, s[i..]);
      MatchesAlphabet(a, s[..i]);
      MatchesAlphabet(b, s[i..]);
      assert s == s[..i] + s[i..];
    case Alt(a, b) =>
      if Matches(a, s) { MatchesAlphabet(a, s); } else { MatchesAlphabet(b, s); }
    case Star(a) =>
      if s != "" {
        var i :| 0 < i <= |s| && Matches(a, s[..i]) && Matches(re, s[i..]);
        MatchesAlphabet(a, s[..i]);
        MatchesAlphabet(re, s[i..]);
        assert s == s[..i] + s[i..];
      }
  }
}
