/** The glob matcher of `delete --match glob`: the pattern is rewritten to the text of a regular
    expression, which is then parsed and run by the rules of section 22.2 of ECMA-262. */
module GlobPattern {
  import opened Wrappers

  // ----- The three rewrites -----

  predicate IsSpecial(c: char) {
    c in ".+^${}()|[]\\"
  }

  function Escape(pattern: string): string {
    if pattern == "" then ""
    else (if IsSpecial(pattern[0]) then ['\\', pattern[0]] else [pattern[0]]) + Escape(pattern[1..])
  }

  function ReplaceAll(text: string, c: char, replacement: string): string {
    if text == "" then "" else (if text[0] == c then replacement else [text[0]]) + ReplaceAll(text[1..], c, replacement)
  }

  function GlobToRegex(pattern: string): string {
    "^" + ReplaceAll(ReplaceAll(Escape(pattern), '*', ".*"), '?', ".") + "$"
  }

  // ----- Regular expressions -----

  datatype Atom = Literal(c: char) | AnyChar
  datatype Term = InputStart | InputEnd | Single(atom: Atom) | Star(atom: Atom)

  predicate IsSyntaxCharacter(c: char) {
    c in "^$\\.*+?()[]{}|"
  }

  function ParseAtom(text: string): Option<(Atom, string)> {
    if text == "" then None
    else if text[0] == '.' then Some((AnyChar, text[1..]))
    else if text[0] == '\\' then
      if |text| > 1 && IsSyntaxCharacter(text[1]) then Some((Literal(text[1]), text[2..])) else None
    else if IsSyntaxCharacter(text[0]) then None
    else Some((Literal(text[0]), text[1..]))
  }

  /** The terms of an expression built from assertions, characters, escapes, `.` and a greedy `*`; any
      other construct gives `None`. */
  function Parse(text: string): Option<seq<Term>>
    decreases |text|
  {
    if text == "" then Some([])
    else if text[0] == '^' then Prepend(InputStart, Parse(text[1..]))
    else if text[0] == '$' then Prepend(InputEnd, Parse(text[1..]))
    else
      match ParseAtom(text)
      case None => None
      case Some((atom, rest)) =>
        if rest == "" || rest[0] !in "*+?{" then Prepend(Single(atom), Parse(rest))
        else if rest[0] != '*' || (|rest| > 1 && rest[1] in "*+?{") then None
        else Prepend(Star(atom), Parse(rest[1..]))
  }

  function Prepend(term: Term, terms: Option<seq<Term>>): Option<seq<Term>> {
    if terms.None? then None else Some([term] + terms.value)
  }

  predicate IsLineTerminator(c: char) {
    c == '\n' || c == '\r' || c == '\U{2028}' || c == '\U{2029}'
  }

  /** One character under flag `i`; `canonicalize` is the case folding of the engine. */
  predicate AtomMatches(canonicalize: char -> char, atom: Atom, c: char) {
    match atom
    case AnyChar => !IsLineTerminator(c)
    case Literal(l) => canonicalize(l) == canonicalize(c)
  }

  predicate MatchesAt(canonicalize: char -> char, terms: seq<Term>, input: string, at: nat)
    requires at <= |input|
    decreases |terms|, |input| - at
  {
    if terms == [] then true
    else
      match terms[0]
      case InputStart => at == 0 && MatchesAt(canonicalize, terms[1..], input, at)
      case InputEnd => at == |input| && MatchesAt(canonicalize, terms[1..], input, at)
      case Single(atom) =>
        at < |input| && AtomMatches(canonicalize, atom, input[at]) && MatchesAt(canonicalize, terms[1..], input, at + 1)
      case Star(atom) =>
        || (at < |input| && AtomMatches(canonicalize, atom, input[at]) && MatchesAt(canonicalize, terms, input, at + 1))
        || MatchesAt(canonicalize, terms[1..], input, at)
  }

  /** `RegExp.prototype.test`: a match that starts anywhere. */
  ghost predicate Test(canonicalize: char -> char, terms: seq<Term>, input: string) {
    exists at: nat :: at <= |input| && MatchesAt(canonicalize, terms, input, at)
  }

  // ----- What a glob means -----

  /** `*` covers any run of characters, `?` any one, both only of those that `wild` admits; every other
      character stands for itself, up to case. */
  predicate GlobMatches(canonicalize: char -> char, wild: char -> bool, pattern: string, title: string)
    decreases |pattern| + |title|
  {
    if pattern == "" then title == ""
    else if pattern[0] == '*' then
      || GlobMatches(canonicalize, wild, pattern[1..], title)
      || (title != "" && wild(title[0]) && GlobMatches(canonicalize, wild, pattern, title[1..]))
    else
      && title != ""
      && (if pattern[0] == '?' then wild(title[0]) else canonicalize(pattern[0]) == canonicalize(title[0]))
      && GlobMatches(canonicalize, wild, pattern[1..], title[1..])
  }

  function GlobTerm(c: char): Term {
    if c == '*' then Star(AnyChar) else if c == '?' then Single(AnyChar) else Single(Literal(c))
  }

  function GlobTerms(pattern: string): seq<Term> {
    if pattern == "" then [InputEnd] else [GlobTerm(pattern[0])] + GlobTerms(pattern[1..])
  }

  // ----- The text parses to the terms of the glob -----

  function Emitted(pattern: string): string {
    ReplaceAll(ReplaceAll(Escape(pattern), '*', ".*"), '?', ".")
  }

  function EmittedChar(c: char): string {
    if c == '*' then ".*" else if c == '?' then "." else if IsSpecial(c) then ['\\', c] else [c]
  }

  lemma {:induction false} ReplaceAllConcat(a: string, b: string, c: char, replacement: string)
    ensures ReplaceAll(a + b, c, replacement) == ReplaceAll(a, c, replacement) + ReplaceAll(b, c, replacement)
  {
    if a == "" {
      assert a + b == b;
    } else {
      assert (a + b)[1..] == a[1..] + b;
      ReplaceAllConcat(a[1..], b, c, replacement);
    }
  }

  lemma ReplaceAllOfOne(x: char, c: char, replacement: string)
    ensures ReplaceAll([x], c, replacement) == if x == c then replacement else [x]
  {
    assert [x][1..] == "";
  }

  lemma ReplaceAllOfTwo(x: char, y: char, c: char, replacement: string)
    requires x != c && y != c
    ensures ReplaceAll([x, y], c, replacement) == [x, y]
  {
    ReplaceAllConcat([x], [y], c, replacement);
    ReplaceAllOfOne(x, c, replacement);
    ReplaceAllOfOne(y, c, replacement);
    assert [x] + [y] == [x, y];
  }

  lemma EmittedHead(c: char)
    ensures ReplaceAll(ReplaceAll(if IsSpecial(c) then ['\\', c] else [c], '*', ".*"), '?', ".") == EmittedChar(c)
  {
    if IsSpecial(c) {
      ReplaceAllOfTwo('\\', c, '*', ".*");
      ReplaceAllOfTwo('\\', c, '?', ".");
    } else {
      ReplaceAllOfOne(c, '*', ".*");
      ReplaceAllOfOne(c, '?', ".");
      ReplaceAllOfTwo('.', '*', '?', ".");
    }
  }

  lemma EmittedStep(pattern: string)
    requires pattern != ""
    ensures Emitted(pattern) == EmittedChar(pattern[0]) + Emitted(pattern[1..])
  {
    var head := if IsSpecial(pattern[0]) then ['\\', pattern[0]] else [pattern[0]];
    var tail := Escape(pattern[1..]);
    ReplaceAllConcat(head, tail, '*', ".*");
    ReplaceAllConcat(ReplaceAll(head, '*', ".*"), ReplaceAll(tail, '*', ".*"), '?', ".");
    EmittedHead(pattern[0]);
  }

  /** No emitted text starts with a quantifier, so none is ever taken for one. */
  lemma {:induction false} EmittedStart(pattern: string)
    ensures (Emitted(pattern) + "$") != "" && (Emitted(pattern) + "$")[0] !in "*+?{"
  {
    if pattern != "" {
      EmittedStep(pattern);
      assert EmittedChar(pattern[0])[0] !in "*+?{";
    }
  }

  lemma ParseChar(c: char, rest: string, terms: seq<Term>)
    requires rest != "" && rest[0] !in "*+?{" && Parse(rest) == Some(terms)
    ensures Parse(EmittedChar(c) + rest) == Some([GlobTerm(c)] + terms)
  {
    var text := EmittedChar(c) + rest;
    if c == '*' {
      assert text[1..] == "*" + rest && text[1..][1..] == rest;
    } else if c != '?' && IsSpecial(c) {
      assert text[2..] == rest;
    } else {
      assert text[1..] == rest;
    }
  }

  lemma {:induction false} EmittedParses(pattern: string)
    ensures Parse(Emitted(pattern) + "$") == Some(GlobTerms(pattern))
  {
    if pattern == "" {
      assert Emitted(pattern) + "$" == "$" && "$"[1..] == "";
      var none: seq<Term> := [];
      assert [InputEnd] + none == [InputEnd];
    } else {
      EmittedStep(pattern);
      EmittedParses(pattern[1..]);
      EmittedStart(pattern[1..]);
      ParseChar(pattern[0], Emitted(pattern[1..]) + "$", GlobTerms(pattern[1..]));
      assert EmittedChar(pattern[0]) + Emitted(pattern[1..]) + "$"
             == EmittedChar(pattern[0]) + (Emitted(pattern[1..]) + "$");
    }
  }

  lemma RegexTextParses(pattern: string)
    ensures Parse(GlobToRegex(pattern)) == Some([InputStart] + GlobTerms(pattern))
  {
    EmittedParses(pattern);
    var text := GlobToRegex(pattern);
    assert text == "^" + (Emitted(pattern) + "$");
    assert text[1..] == Emitted(pattern) + "$";
  }

  // ----- Running the terms is running the glob -----

  lemma {:induction false} TermsMatchGlob(canonicalize: char -> char, pattern: string, title: string, at: nat)
    requires at <= |title|
    ensures MatchesAt(canonicalize, GlobTerms(pattern), title, at)
            <==> GlobMatches(canonicalize, c => !IsLineTerminator(c), pattern, title[at..])
    decreases |pattern|, |title| - at
  {
    var terms := GlobTerms(pattern);
    if pattern == "" {
      assert terms[1..] == [];
    } else {
      assert terms[1..] == GlobTerms(pattern[1..]);
      if at < |title| {
        assert title[at..][1..] == title[at + 1..];
        TermsMatchGlob(canonicalize, pattern[1..], title, at + 1);
        TermsMatchGlob(canonicalize, pattern, title, at + 1);
      }
      TermsMatchGlob(canonicalize, pattern[1..], title, at);
    }
  }

  /** `globToRegex` keeps the meaning of every pattern on every title, with wildcards that stop at line
      terminators. */
  lemma RegexMeansGlob(canonicalize: char -> char, pattern: string, title: string)
    ensures Parse(GlobToRegex(pattern)).Some?
    ensures Test(canonicalize, Parse(GlobToRegex(pattern)).value, title)
            <==> GlobMatches(canonicalize, c => !IsLineTerminator(c), pattern, title)
  {
    RegexTextParses(pattern);
    var terms := [InputStart] + GlobTerms(pattern);
    assert terms[1..] == GlobTerms(pattern);
    TermsMatchGlob(canonicalize, pattern, title, 0);
    assert title[0..] == title;
    assert MatchesAt(canonicalize, terms, title, 0) <==> MatchesAt(canonicalize, GlobTerms(pattern), title, 0);
    assert forall at: nat | at <= |title| && MatchesAt(canonicalize, terms, title, at) :: at == 0;
  }

  lemma {:induction false} WildcardsAlike(canonicalize: char -> char, pattern: string, title: string)
    requires forall i | 0 <= i < |title| :: !IsLineTerminator(title[i])
    ensures GlobMatches(canonicalize, c => !IsLineTerminator(c), pattern, title)
            <==> GlobMatches(canonicalize, c => true, pattern, title)
    decreases |pattern| + |title|
  {
    if pattern != "" {
      WildcardsAlike(canonicalize, pattern[1..], title);
      if title != "" {
        WildcardsAlike(canonicalize, pattern, title[1..]);
        WildcardsAlike(canonicalize, pattern[1..], title[1..]);
      }
    }
  }

  /** On titles of one line the wildcards are unrestricted. */
  lemma RegexMeansGlobOnLines(canonicalize: char -> char, pattern: string, title: string)
    requires forall i | 0 <= i < |title| :: !IsLineTerminator(title[i])
    ensures Parse(GlobToRegex(pattern)).Some?
    ensures Test(canonicalize, Parse(GlobToRegex(pattern)).value, title)
            <==> GlobMatches(canonicalize, c => true, pattern, title)
  {
    RegexMeansGlob(canonicalize, pattern, title);
    WildcardsAlike(canonicalize, pattern, title);
  }

  /** `*` alone selects every title if and only if no character of it is a line terminator. */
  lemma StarSelects(canonicalize: char -> char, title: string)
    ensures GlobMatches(canonicalize, c => !IsLineTerminator(c), "*", title)
            <==> forall i | 0 <= i < |title| :: !IsLineTerminator(title[i])
  {
    assert "*"[1..] == "";
    if title != "" {
      StarSelects(canonicalize, title[1..]);
      assert title == [title[0]] + title[1..];
    }
  }
}
