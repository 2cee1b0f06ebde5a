/**
  `PhaseSpace` of binning.py: a set of variable names, with union (`*`),
  difference (`/`), subset comparisons, and a textual form that
  `from_string` reads back.
 */
module PhaseSpaces {
  import opened Wrappers

  datatype PhaseSpace = PhaseSpace(variables: set<string>)

  /** `var in ps` */
  predicate Contains(ps: PhaseSpace, v: string) {
    v in ps.variables
  }

  /** `==` */
  predicate Eq(a: PhaseSpace, b: PhaseSpace) {
    a.variables == b.variables
  }

  /** `!=` */
  predicate Ne(a: PhaseSpace, b: PhaseSpace) {
    !(a.variables == b.variables)
  }

  /** `<=`: a is a sub-space of b */
  predicate Le(a: PhaseSpace, b: PhaseSpace) {
    a.variables <= b.variables
  }

  /** `>=` */
  predicate Ge(a: PhaseSpace, b: PhaseSpace) {
    a.variables >= b.variables
  }

  /** `<`: sub-space and not equal */
  predicate Lt(a: PhaseSpace, b: PhaseSpace) {
    a.variables <= b.variables && !(a.variables == b.variables)
  }

  /** `>` */
  predicate Gt(a: PhaseSpace, b: PhaseSpace) {
    a.variables >= b.variables && !(a.variables == b.variables)
  }

  /** `a * b`: the product space has the variables of either factor. */
  function Mul(a: PhaseSpace, b: PhaseSpace): (r: PhaseSpace)
    ensures forall v :: Contains(r, v) <==> Contains(a, v) || Contains(b, v)
  {
    PhaseSpace(a.variables + b.variables)
  }

  /** `a / b`: the variables of a that are not variables of b. */
  function Div(a: PhaseSpace, b: PhaseSpace): (r: PhaseSpace)
    ensures forall v :: Contains(r, v) <==> Contains(a, v) && !Contains(b, v)
  {
    PhaseSpace(a.variables - b.variables)
  }

  /** Equality and inequality are complementary, and equality is the datatype's. */
  lemma EqNeComplementary(a: PhaseSpace, b: PhaseSpace)
    ensures Ne(a, b) <==> !Eq(a, b)
    ensures Eq(a, b) <==> a == b
  {
  }

  /** The strict comparisons are the non-strict ones minus equality; `ps < ps` is false. */
  lemma StrictOrder(a: PhaseSpace, b: PhaseSpace)
    ensures Lt(a, b) <==> Le(a, b) && !Ge(a, b)
    ensures Gt(a, b) <==> Lt(b, a)
    ensures Ge(a, b) <==> Le(b, a)
    ensures !Lt(a, a) && !Gt(a, a)
    ensures Le(a, b) && Le(b, a) ==> Eq(a, b)
  {
  }

  /** `(x * y) / y` removes exactly y's variables. */
  lemma DivUndoesMul(x: PhaseSpace, y: PhaseSpace)
    ensures Div(Mul(x, y), y) == Div(x, y)
    ensures Le(Div(x, y), x)
    ensures x.variables !! y.variables ==> Div(Mul(x, y), y) == x
  {
  }

  // ------------------------------------------------------------ string form

  const Separator: string := "' X '"

  /** `"' X '".join(names)` */
  function Join(names: seq<string>): string {
    if |names| == 0 then ""
    else if |names| == 1 then names[0]
    else names[0] + Separator + Join(names[1..])
  }

  /** `order` lists the elements of `s`, each once: one possible iteration order of a Python set. */
  predicate IsEnumeration(order: seq<string>, s: set<string>) {
    && (forall i, j :: 0 <= i < j < |order| ==> order[i] != order[j])
    && (forall i :: 0 <= i < |order| ==> order[i] in s)
    && (forall v :: v in s ==> v in order)
  }

  /** `str(ps)`, given the order in which Python happens to iterate the variable set. */
  function ToString(ps: PhaseSpace, order: seq<string>): string
    requires IsEnumeration(order, ps.variables)
  {
    "('" + Join(order) + "')"
  }

  /**
    `re.match(r"\('(.+)'\)$", s).group(1)`, or None when the pattern does not
    match. `$` also matches just before a final newline, and `.` matches any
    character except a newline.
   */
  function MatchGroup(s: string): (g: Option<string>)
    ensures g.Some? ==> |g.value| > 0 && '\n' !in g.value
    ensures g.Some? ==> s == "('" + g.value + "')" || s == "('" + g.value + "')\n"
    ensures forall w :: |w| > 0 && '\n' !in w && (s == "('" + w + "')" || s == "('" + w + "')\n") ==> g == Some(w)
  {
    var t := if |s| > 0 && s[|s| - 1] == '\n' then s[..|s| - 1] else s;
    if |t| >= 5 && t[..2] == "('" && t[|t| - 2..] == "')" && '\n' !in t[2..|t| - 2] then
      assert t == "('" + t[2..|t| - 2] + "')";
      assert s == t || s == t + "\n";
      assert forall w :: (s == "('" + w + "')" || s == "('" + w + "')\n") ==> t == "('" + w + "')";
      assert forall w :: t == "('" + w + "')" ==> w == t[2..|t| - 2];
      Some(t[2..|t| - 2])
    else
      None
  }

  /** The separator occurs in `s` at position `i`. */
  predicate SeparatorAt(s: string, i: nat) {
    i + |Separator| <= |s| && s[i..i + |Separator|] == Separator
  }

  /** First occurrence of the separator, scanning left to right. */
  function FindSeparator(s: string): (r: Option<nat>)
    ensures r.Some? ==> SeparatorAt(s, r.value) && forall j :: 0 <= j < r.value ==> !SeparatorAt(s, j)
    ensures r.None? ==> forall j :: 0 <= j <= |s| ==> !SeparatorAt(s, j)
  {
    if |s| < |Separator| then None
    else if s[..|Separator|] == Separator then Some(0)
    else
      match FindSeparator(s[1..])
      case None =>
        assert forall j :: 1 <= j <= |s| ==> (SeparatorAt(s, j) <==> SeparatorAt(s[1..], j - 1));
        None
      case Some(i) =>
        assert forall j :: 1 <= j <= |s| ==> (SeparatorAt(s, j) <==> SeparatorAt(s[1..], j - 1));
        Some(i + 1)
  }

  /** `re.split(r"' X '", s)`: the pieces between the non-overlapping separators. */
  function Split(s: string): (pieces: seq<string>)
    ensures |pieces| >= 1
    decreases |s|
  {
    match FindSeparator(s)
    case None => [s]
    case Some(i) => [s[..i]] + Split(s[i + |Separator|..])
  }

  /** `PhaseSpace.from_string(s)`; a string that does not match raises AttributeError. */
  function FromString(s: string): (r: Result<PhaseSpace>)
    ensures r.Failure? <==> MatchGroup(s).None?
    ensures r.Success? ==> forall v :: Contains(r.value, v) <==> v in Split(MatchGroup(s).value)
  {
    match MatchGroup(s)
    case None => Failure(AttributeError)
    case Some(g) => Success(PhaseSpace(set v | v in Split(g)))
  }

  predicate NoQuote(w: string) {
    '\'' !in w
  }

  /** A name without quotes holds no separator, and the separator after it is the first one. */
  lemma SeparatorAfterName(w: string, rest: string)
    requires NoQuote(w)
    ensures FindSeparator(w).None?
    ensures FindSeparator(w + Separator + rest) == Some(|w|)
  {
    var s := w + Separator + rest;
    forall j | 0 <= j <= |w|
      ensures !SeparatorAt(w, j)
    {
      if j + |Separator| <= |w| {
        assert w[j..j + |Separator|][0] == w[j] != '\'';
      }
    }
    assert SeparatorAt(s, |w|) by {
      assert s[|w|..|w| + |Separator|] == Separator;
    }
    forall j | 0 <= j < |w|
      ensures !SeparatorAt(s, j)
    {
      assert s[j..j + |Separator|][0] == s[j] == w[j] != '\'';
    }
  }

  /** A quote-free name followed by the separator splits off as the first piece. */
  lemma SplitAfterName(w: string, rest: string)
    requires NoQuote(w)
    ensures Split(w + Separator + rest) == [w] + Split(rest)
  {
    var s := w + Separator + rest;
    SeparatorAfterName(w, rest);
    assert s[..|w|] == w;
    assert s[|w| + |Separator|..] == rest;
  }

  /** Splitting a join of quote-free names gives back the names. */
  lemma {:induction false} SplitJoin(names: seq<string>)
    requires |names| >= 1
    requires forall i :: 0 <= i < |names| ==> NoQuote(names[i])
    ensures Split(Join(names)) == names
  {
    if |names| == 1 {
      SeparatorAfterName(names[0], "");
    } else {
      assert Join(names) == names[0] + Separator + Join(names[1..]);
      SplitAfterName(names[0], Join(names[1..]));
      SplitJoin(names[1..]);
      assert names == [names[0]] + names[1..];
    }
  }

  /** A join holds a newline only when one of the names does. */
  lemma {:induction false} JoinNewline(names: seq<string>)
    requires forall i :: 0 <= i < |names| ==> '\n' !in names[i]
    ensures '\n' !in Join(names)
  {
    if |names| > 1 {
      JoinNewline(names[1..]);
    }
  }

  /** A join of two or more names is longer than the separator. */
  lemma JoinNonEmpty(names: seq<string>)
    requires |names| >= 2 || (|names| == 1 && |names[0]| > 0)
    ensures |Join(names)| > 0
  {
  }

  /**
    `from_string(str(ps)) == ps` for every iteration order, provided the
    variable names hold neither quotes nor newlines and the joined names are
    not empty (the empty phase space and the phase space `{''}` both print
    as `('')`, which does not match).
   */
  lemma FromStringRoundTrip(ps: PhaseSpace, order: seq<string>)
    requires IsEnumeration(order, ps.variables)
    requires ps.variables != {} && ps.variables != {""}
    requires forall v :: v in ps.variables ==> NoQuote(v) && '\n' !in v
    ensures FromString(ToString(ps, order)) == Success(ps)
  {
    var j := Join(order);
    assert |order| >= 1 by {
      var v :| v in ps.variables;
      assert v in order;
    }
    if |order| == 1 {
      assert exists v :: v in ps.variables && v != "";
      var v :| v in ps.variables && v != "";
      assert v in order;
    }
    JoinNonEmpty(order);
    JoinNewline(order);
    assert MatchGroup(ToString(ps, order)) == Some(j);
    SplitJoin(order);
    assert (set v | v in Split(j)) == ps.variables;
  }

  /** The empty phase space prints as `('')`, which `from_string` rejects. */
  lemma EmptyDoesNotRoundTrip()
    ensures FromString(ToString(PhaseSpace({}), [])) == Failure(AttributeError)
  {
    assert ToString(PhaseSpace({}), []) == "('')";
    assert MatchGroup("('')") == None;
  }
}
