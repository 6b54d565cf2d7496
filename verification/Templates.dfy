/**
 * Route templates such as `/runs/<run_id>/files/<path:file>` and the two regular expressions built from one:
 * the rule pattern, whose literals are not escaped (`_re_compile_path`), and the named pattern, which escapes
 * them and extracts the parameters (`_compile_named_path_pattern`).
 */
module Templates {
  import opened Wrappers

  datatype Token = Literal(text: string) | Plain(name: string) | Path(name: string)

  // ----- Reading a template -----

  /** The first '>' at or after `i`, or the end. */
  function Close(s: string, i: nat): (j: nat)
    requires i <= |s|
    ensures i <= j <= |s| && (j < |s| ==> s[j] == '>')
    decreases |s| - i
  {
    if i == |s| || s[i] == '>' then i else Close(s, i + 1)
  }

  /** `<([^>]+)>` matches here. */
  predicate TokenAt(s: string, i: nat)
    requires i < |s|
  {
    s[i] == '<' && i + 1 < Close(s, i + 1) < |s|
  }

  /** Where the next token starts, or the end. */
  function NextToken(s: string, i: nat): (j: nat)
    requires i <= |s|
    ensures i <= j <= |s| && (j < |s| ==> TokenAt(s, j))
    decreases |s| - i
  {
    if i == |s| || TokenAt(s, i) then i else NextToken(s, i + 1)
  }

  function Classified(token: string): Token {
    if "path:" <= token then Path(token[5..]) else Plain(token)
  }

  function TokensFrom(s: string, cursor: nat): (r: seq<Token>)
    requires cursor <= |s|
    decreases |s| - cursor
  {
    var start := NextToken(s, cursor);
    if start == |s| then [Literal(s[cursor..])]
    else Step(s, cursor, start) + TokensFrom(s, Close(s, start + 1) + 1)
  }

  /** The literal up to a token, and the token. */
  function Step(s: string, cursor: nat, start: nat): seq<Token>
    requires cursor <= start < |s| && TokenAt(s, start)
  {
    [Literal(s[cursor..start]), Classified(s[start + 1..Close(s, start + 1)])]
  }

  function Tokens(template: string): seq<Token> {
    TokensFrom(template, 0)
  }

  /** The tokens read so far, with those still to come, are the template's. */
  ghost predicate ReadSoFar(s: string, tokens: seq<Token>, cursor: nat) {
    cursor <= |s| && tokens + TokensFrom(s, cursor) == Tokens(s)
  }

  /** The cursor loop of `_compile_named_path_pattern`. */
  method Tokenise(template: string) returns (tokens: seq<Token>)
    ensures tokens == Tokens(template)
  {
    tokens := [];
    var cursor := 0;
    var start := NextToken(template, cursor);
    Regroup([], [], TokensFrom(template, 0));
    while start < |template|
      invariant ReadSoFar(template, tokens, cursor)
      invariant start == NextToken(template, cursor)
      decreases |template| - cursor
    {
      OneStep(template, tokens, cursor, start);
      tokens := tokens + Step(template, cursor, start);
      cursor := Close(template, start + 1) + 1;
      start := NextToken(template, cursor);
    }
    tokens := tokens + [Literal(template[cursor..])];
  }

  lemma OneStep(s: string, done: seq<Token>, cursor: nat, start: nat)
    requires ReadSoFar(s, done, cursor) && start == NextToken(s, cursor) < |s|
    ensures ReadSoFar(s, done + Step(s, cursor, start), Close(s, start + 1) + 1)
  {
    Regroup(done, Step(s, cursor, start), TokensFrom(s, Close(s, start + 1) + 1));
  }

  lemma Regroup<T>(a: seq<T>, b: seq<T>, c: seq<T>)
    ensures a + (b + c) == (a + b) + c
  {
  }

  function Written(t: Token): string {
    match t
    case Literal(text) => text
    case Plain(name) => "<" + name + ">"
    case Path(name) => "<path:" + name + ">"
  }

  function Rendered(tokens: seq<Token>): string {
    if tokens == [] then "" else Written(tokens[0]) + Rendered(tokens[1..])
  }

  lemma WrittenBack(token: string)
    ensures Written(Classified(token)) == "<" + token + ">"
  {
    if "path:" <= token {
      assert token == "path:" + token[5..];
    }
  }

  /** Reading a template loses nothing: writing its tokens out gives the template. */
  lemma {:induction false} RenderingRebuilds(s: string, cursor: nat)
    requires cursor <= |s|
    ensures Rendered(TokensFrom(s, cursor)) == s[cursor..]
    decreases |s| - cursor
  {
    var start := NextToken(s, cursor);
    if start == |s| {
      RenderLast(s, cursor);
    } else {
      RenderingRebuilds(s, Close(s, start + 1) + 1);
      FirstStep(s, cursor, start);
      RenderMore(s, cursor, start, TokensFrom(s, Close(s, start + 1) + 1), TokensFrom(s, cursor));
    }
  }

  lemma RenderLast(s: string, cursor: nat)
    requires cursor <= |s| && NextToken(s, cursor) == |s|
    ensures Rendered(TokensFrom(s, cursor)) == s[cursor..]
  {
    RenderOne(Literal(s[cursor..]));
  }

  lemma RenderMore(s: string, cursor: nat, start: nat, rest: seq<Token>, all: seq<Token>)
    requires cursor <= start < |s| && TokenAt(s, start)
    requires Rendered(rest) == s[Close(s, start + 1) + 1..] && all == Step(s, cursor, start) + rest
    ensures Rendered(all) == s[cursor..]
  {
    RenderStep(s, cursor, start, Close(s, start + 1), rest);
  }

  lemma FirstStep(s: string, cursor: nat, start: nat)
    requires cursor <= |s| && start == NextToken(s, cursor) < |s|
    ensures TokensFrom(s, cursor) == Step(s, cursor, start) + TokensFrom(s, Close(s, start + 1) + 1)
  {
  }

  lemma RenderStep(s: string, cursor: nat, start: nat, end: nat, rest: seq<Token>)
    requires cursor <= start < end < |s| && s[start] == '<' && s[end] == '>' && Rendered(rest) == s[end + 1..]
    ensures Rendered([Literal(s[cursor..start]), Classified(s[start + 1..end])] + rest) == s[cursor..]
  {
    WrittenBack(s[start + 1..end]);
    RenderTwo(Literal(s[cursor..start]), Classified(s[start + 1..end]), rest);
    Pieces(s, cursor, start, end);
  }

  lemma Pieces(s: string, cursor: nat, start: nat, end: nat)
    requires cursor <= start < end < |s| && s[start] == '<' && s[end] == '>'
    ensures s[cursor..start] + ("<" + s[start + 1..end] + ">" + s[end + 1..]) == s[cursor..]
  {
  }

  lemma RenderOne(t: Token)
    ensures Rendered([t]) == Written(t)
  {
    assert [t][1..] == [];
  }

  lemma RenderTwo(a: Token, b: Token, rest: seq<Token>)
    ensures Rendered([a, b] + rest) == Written(a) + (Written(b) + Rendered(rest))
  {
    assert ([a, b] + rest)[1..] == [b] + rest;
    assert ([b] + rest)[1..] == rest;
  }

  // ----- Regular expressions -----

  /** A literal character, `.`, another metacharacter, `([^/]+)`, `(.+)`. */
  datatype Atom = Exactly(c: char) | AnyChar | Operator(c: char) | Segment | Rest

  predicate Capturing(a: Atom) {
    a.Segment? || a.Rest?
  }

  /** What the atom reads. What metacharacters other than '.' do is not modelled: they read nothing. */
  predicate Admits(a: Atom, c: char) {
    match a
    case Exactly(d) => c == d
    case AnyChar => c != '\n'
    case Operator(_) => false
    case Segment => c != '/'
    case Rest => c != '\n'
  }

  predicate IsOperator(c: char) {
    c in "^$*+?{}[]\\|()"
  }

  function LiteralAtom(c: char, escape: bool): Atom {
    if escape then Exactly(c) else if c == '.' then AnyChar else if IsOperator(c) then Operator(c) else Exactly(c)
  }

  function LiteralAtoms(text: string, escape: bool): (r: seq<Atom>)
    ensures |r| == |text| && forall i :: 0 <= i < |r| ==> r[i] == LiteralAtom(text[i], escape)
  {
    seq(|text|, i requires 0 <= i < |text| => LiteralAtom(text[i], escape))
  }

  function TokenAtoms(t: Token, escape: bool): seq<Atom> {
    match t
    case Literal(text) => LiteralAtoms(text, escape)
    case Plain(_) => [Segment]
    case Path(_) => [Rest]
  }

  function Pattern(tokens: seq<Token>, escape: bool): seq<Atom> {
    if tokens == [] then [] else TokenAtoms(tokens[0], escape) + Pattern(tokens[1..], escape)
  }

  /** The two compilers. */
  function RulePattern(template: string): seq<Atom> { Pattern(Tokens(template), false) }

  function NamedPattern(template: string): seq<Atom> { Pattern(Tokens(template), true) }

  /** How far a repeated class reads. */
  function Run(a: Atom, s: string): (n: nat)
    ensures n <= |s| && (forall i :: 0 <= i < n ==> Admits(a, s[i])) && (n < |s| ==> !Admits(a, s[n]))
  {
    if s != "" && Admits(a, s[0]) then 1 + Run(a, s[1..]) else 0
  }

  /** `fullmatch`: greedy, backtracking; the captures in order. */
  function FullMatch(atoms: seq<Atom>, s: string): Option<seq<string>>
    decreases |atoms|, |s| + 1
  {
    if atoms == [] then (if s == "" then Some([]) else None)
    else if Capturing(atoms[0]) then Backtrack(atoms, s, Run(atoms[0], s))
    else if s != "" && Admits(atoms[0], s[0]) then FullMatch(atoms[1..], s[1..])
    else None
  }

  /** The group takes `k` characters if the rest then matches, fewer otherwise, and at least one. */
  function Backtrack(atoms: seq<Atom>, s: string, k: nat): Option<seq<string>>
    requires atoms != [] && k <= |s|
    decreases |atoms|, k
  {
    if k == 0 then None
    else
      var rest := FullMatch(atoms[1..], s[k..]);
      if rest.Some? then Some([s[..k]] + rest.value) else Backtrack(atoms, s, k - 1)
  }

  // ----- What a match means -----

  predicate Captures(a: Atom, part: string) {
    part != "" && forall i :: 0 <= i < |part| ==> Admits(a, part[i])
  }

  /** Some way to read the whole string, with these captures. */
  predicate Fits(atoms: seq<Atom>, s: string, captures: seq<string>) {
    if atoms == [] then s == "" && captures == []
    else if Capturing(atoms[0]) then
      captures != [] && captures[0] <= s && Captures(atoms[0], captures[0]) && Fits(atoms[1..], s[|captures[0]|..], captures[1..])
    else s != "" && Admits(atoms[0], s[0]) && Fits(atoms[1..], s[1..], captures)
  }

  /** At the first capture that differs, `a`'s is longer. */
  predicate Greedier(a: seq<string>, b: seq<string>) {
    a == b || (a != [] && b != [] && (|a[0]| > |b[0]| || (a[0] == b[0] && Greedier(a[1..], b[1..]))))
  }

  lemma {:induction false} BacktrackFits(atoms: seq<Atom>, s: string, k: nat)
    requires atoms != [] && Capturing(atoms[0]) && k <= Run(atoms[0], s) && Backtrack(atoms, s, k).Some?
    ensures Fits(atoms, s, Backtrack(atoms, s, k).value)
    decreases |atoms|, k
  {
    var rest := FullMatch(atoms[1..], s[k..]);
    if rest.Some? {
      MatchFits(atoms[1..], s[k..]);
      assert ([s[..k]] + rest.value)[1..] == rest.value;
    } else {
      BacktrackFits(atoms, s, k - 1);
    }
  }

  /** A match is a reading. */
  lemma {:induction false} MatchFits(atoms: seq<Atom>, s: string)
    requires FullMatch(atoms, s).Some?
    ensures Fits(atoms, s, FullMatch(atoms, s).value)
    decreases |atoms|, |s| + 1
  {
    if atoms != [] {
      if Capturing(atoms[0]) {
        BacktrackFits(atoms, s, Run(atoms[0], s));
      } else {
        MatchFits(atoms[1..], s[1..]);
      }
    }
  }

  lemma {:induction false} BacktrackIsGreediest(atoms: seq<Atom>, s: string, k: nat, captures: seq<string>)
    requires atoms != [] && Capturing(atoms[0]) && Fits(atoms, s, captures)
    requires |captures[0]| <= k <= Run(atoms[0], s)
    ensures Backtrack(atoms, s, k).Some? && Greedier(Backtrack(atoms, s, k).value, captures)
    decreases |atoms|, k
  {
    var rest := FullMatch(atoms[1..], s[k..]);
    if |captures[0]| == k {
      MatchIsGreediest(atoms[1..], s[k..], captures[1..]);
      assert ([s[..k]] + rest.value)[1..] == rest.value;
    } else if rest.None? {
      BacktrackIsGreediest(atoms, s, k - 1, captures);
    }
  }

  lemma CaptureWithinRun(a: Atom, s: string, part: string)
    requires part <= s && Captures(a, part)
    ensures |part| <= Run(a, s)
  {
    assert forall i :: 0 <= i < |part| ==> s[i] == part[i] && Admits(a, s[i]);
  }

  /** Whenever a reading exists there is a match, and of all readings it is the greediest. */
  lemma {:induction false} MatchIsGreediest(atoms: seq<Atom>, s: string, captures: seq<string>)
    requires Fits(atoms, s, captures)
    ensures FullMatch(atoms, s).Some? && Greedier(FullMatch(atoms, s).value, captures)
    decreases |atoms|, |s| + 1
  {
    if atoms != [] {
      if Capturing(atoms[0]) {
        CaptureWithinRun(atoms[0], s, captures[0]);
        BacktrackIsGreediest(atoms, s, Run(atoms[0], s), captures);
      } else {
        MatchIsGreediest(atoms[1..], s[1..], captures);
      }
    }
  }

  /** No two readings are each greedier than the other, so the match is the only greediest one. */
  lemma {:induction false} GreediestIsUnique(a: seq<string>, b: seq<string>)
    requires Greedier(a, b) && Greedier(b, a)
    ensures a == b
  {
    if a != [] && b != [] && a[0] == b[0] {
      if a[1..] != b[1..] {
        assert Greedier(a[1..], b[1..]) && Greedier(b[1..], a[1..]);
      }
      GreediestIsUnique(a[1..], b[1..]);
      assert a == [a[0]] + a[1..] && b == [b[0]] + b[1..];
    }
  }

  /** A reading greedier than every other. */
  ghost predicate Greediest(atoms: seq<Atom>, s: string, captures: seq<string>) {
    Fits(atoms, s, captures) && forall other :: Fits(atoms, s, other) ==> Greedier(captures, other)
  }

  /** A full match is the greediest reading, and the only one that is. */
  lemma MatchIffGreediest(atoms: seq<Atom>, s: string, captures: seq<string>)
    ensures FullMatch(atoms, s) == Some(captures) <==> Greediest(atoms, s, captures)
  {
    if FullMatch(atoms, s) == Some(captures) {
      MatchFits(atoms, s);
      forall other | Fits(atoms, s, other) ensures Greedier(captures, other) {
        MatchIsGreediest(atoms, s, other);
      }
    }
    if Greediest(atoms, s, captures) {
      MatchIsGreediest(atoms, s, captures);
      MatchFits(atoms, s);
      GreediestIsUnique(captures, FullMatch(atoms, s).value);
    }
  }

  // ----- Substitution -----

  /** The captures a template takes: slash-free for plain tokens, newline-free for paths, never empty. */
  predicate ValidCaptures(tokens: seq<Token>, captures: seq<string>) {
    if tokens == [] then captures == []
    else if tokens[0].Literal? then ValidCaptures(tokens[1..], captures)
    else captures != [] && ValidCapture(tokens[0], captures[0]) && ValidCaptures(tokens[1..], captures[1..])
  }

  predicate ValidCapture(t: Token, capture: string) {
    capture != "" && (if t.Plain? then '/' !in capture else '\n' !in capture)
  }

  function Substitute(tokens: seq<Token>, captures: seq<string>): string
    requires ValidCaptures(tokens, captures)
  {
    if tokens == [] then ""
    else if tokens[0].Literal? then tokens[0].text + Substitute(tokens[1..], captures)
    else captures[0] + Substitute(tokens[1..], captures[1..])
  }

  /** How an unescaped literal may read. */
  predicate Reads(text: string, escape: bool, part: string) {
    |part| == |text| && forall i :: 0 <= i < |text| ==> Admits(LiteralAtom(text[i], escape), part[i])
  }

  lemma {:induction false} LiteralFits(text: string, escape: bool, rest: seq<Atom>, s: string, captures: seq<string>)
    ensures Fits(LiteralAtoms(text, escape) + rest, s, captures) <==>
      |text| <= |s| && Reads(text, escape, s[..|text|]) && Fits(rest, s[|text|..], captures)
  {
    var atoms := LiteralAtoms(text, escape);
    if text == "" {
      assert atoms + rest == rest && s[0..] == s;
    } else {
      assert (atoms + rest)[0] == LiteralAtom(text[0], escape);
      assert (atoms + rest)[1..] == LiteralAtoms(text[1..], escape) + rest;
      if s != "" {
        LiteralFits(text[1..], escape, rest, s[1..], captures);
        LiteralReads(text, escape, s);
      }
    }
  }

  lemma LiteralReads(text: string, escape: bool, s: string)
    requires text != "" && s != ""
    ensures |text| <= |s| ==>
      (Reads(text, escape, s[..|text|]) <==> Admits(LiteralAtom(text[0], escape), s[0]) && Reads(text[1..], escape, s[1..][..|text| - 1]))
    ensures |text| <= |s| ==> s[|text|..] == s[1..][|text| - 1..]
  {
    if |text| <= |s| {
      var tail, part := text[1..], s[1..][..|text| - 1];
      assert forall i :: 0 <= i < |tail| ==> tail[i] == text[i + 1] && part[i] == s[i + 1];
      if Reads(tail, escape, part) && Admits(LiteralAtom(text[0], escape), s[0]) {
        forall i | 0 <= i < |text| ensures Admits(LiteralAtom(text[i], escape), s[..|text|][i]) {
          if i > 0 {
            assert Admits(LiteralAtom(tail[i - 1], escape), part[i - 1]);
          }
        }
      }
    }
  }

  lemma EscapedReads(text: string, part: string)
    ensures Reads(text, true, part) <==> part == text
  {
  }

  lemma GroupFits(t: Token, rest: seq<Atom>, escape: bool, s: string, captures: seq<string>)
    requires !t.Literal?
    ensures Fits(TokenAtoms(t, escape) + rest, s, captures) <==>
      captures != [] && captures[0] <= s && ValidCapture(t, captures[0]) && Fits(rest, s[|captures[0]|..], captures[1..])
  {
    assert (TokenAtoms(t, escape) + rest)[1..] == rest;
  }

  lemma PrefixAndRest(a: string, b: string, s: string)
    ensures a <= s && s[|a|..] == b <==> a + b == s
  {
  }

  /** The readings of the named pattern are exactly the ways to rebuild the path from the template. */
  lemma {:induction false} FitsIffSubstitutes(tokens: seq<Token>, s: string, captures: seq<string>)
    ensures Fits(Pattern(tokens, true), s, captures) <==> ValidCaptures(tokens, captures) && Substitute(tokens, captures) == s
  {
    if tokens != [] {
      var rest := Pattern(tokens[1..], true);
      if tokens[0].Literal? {
        var text := tokens[0].text;
        LiteralFits(text, true, rest, s, captures);
        if |text| <= |s| {
          EscapedReads(text, s[..|text|]);
          FitsIffSubstitutes(tokens[1..], s[|text|..], captures);
        }
        if ValidCaptures(tokens, captures) {
          PrefixAndRest(text, Substitute(tokens[1..], captures), s);
        }
      } else {
        GroupFits(tokens[0], rest, true, s, captures);
        if captures != [] && captures[0] <= s {
          FitsIffSubstitutes(tokens[1..], s[|captures[0]|..], captures[1..]);
        }
        if ValidCaptures(tokens, captures) {
          PrefixAndRest(captures[0], Substitute(tokens[1..], captures[1..]), s);
        }
      }
    }
  }

  // ----- The rule pattern -----

  /** Text that a literal of the rule pattern reads: itself, except that a '.' stands for any character of a line. */
  predicate LooksLike(text: string, part: string) {
    |part| == |text| && forall i :: 0 <= i < |text| ==> part[i] == text[i] || (text[i] == '.' && part[i] != '\n')
  }

  /** The path is the template with the captures in the places of its tokens, and text that looks like its literals. */
  predicate Resembles(tokens: seq<Token>, captures: seq<string>, s: string) {
    if tokens == [] then captures == [] && s == ""
    else if tokens[0].Literal? then
      |tokens[0].text| <= |s| && LooksLike(tokens[0].text, s[..|tokens[0].text|]) && Resembles(tokens[1..], captures, s[|tokens[0].text|..])
    else captures != [] && captures[0] <= s && ValidCapture(tokens[0], captures[0]) && Resembles(tokens[1..], captures[1..], s[|captures[0]|..])
  }

  /** The readings of the rule pattern are exactly these, where its literals have no other metacharacter. */
  lemma {:induction false} RuleFitsIff(tokens: seq<Token>, s: string, captures: seq<string>)
    requires PlainLiterals(tokens)
    ensures Fits(Pattern(tokens, false), s, captures) <==> Resembles(tokens, captures, s)
  {
    if tokens != [] {
      var rest := Pattern(tokens[1..], false);
      if tokens[0].Literal? {
        var text := tokens[0].text;
        LiteralFits(text, false, rest, s, captures);
        if |text| <= |s| {
          assert Reads(text, false, s[..|text|]) <==> LooksLike(text, s[..|text|]);
          RuleFitsIff(tokens[1..], s[|text|..], captures);
        }
      } else {
        GroupFits(tokens[0], rest, false, s, captures);
        if captures != [] && captures[0] <= s {
          RuleFitsIff(tokens[1..], s[|captures[0]|..], captures[1..]);
        }
      }
    }
  }

  // ----- The two patterns together -----

  /** No literal holds a metacharacter other than '.'. */
  predicate PlainLiterals(tokens: seq<Token>) {
    forall t :: t in tokens && t.Literal? ==> forall c :: c in t.text ==> !IsOperator(c)
  }

  predicate HasDot(tokens: seq<Token>) {
    exists t :: t in tokens && t.Literal? && '.' in t.text
  }

  lemma OneReading(text: string, part: string)
    requires forall c :: c in text ==> !IsOperator(c)
    ensures Reads(text, true, part) ==> Reads(text, false, part)
    ensures '.' !in text ==> (Reads(text, true, part) <==> Reads(text, false, part))
  {
  }

  /** Everything the named pattern reads, the rule pattern reads with the same captures; without a '.' they read the same. */
  lemma {:induction false} NamedIsWithinRule(tokens: seq<Token>, s: string, captures: seq<string>)
    requires PlainLiterals(tokens)
    ensures Fits(Pattern(tokens, true), s, captures) ==> Fits(Pattern(tokens, false), s, captures)
    ensures !HasDot(tokens) && Fits(Pattern(tokens, false), s, captures) ==> Fits(Pattern(tokens, true), s, captures)
  {
    if tokens != [] {
      var named, rule := Pattern(tokens[1..], true), Pattern(tokens[1..], false);
      if tokens[0].Literal? {
        var text := tokens[0].text;
        LiteralFits(text, true, named, s, captures);
        LiteralFits(text, false, rule, s, captures);
        if |text| <= |s| {
          OneReading(text, s[..|text|]);
          NamedIsWithinRule(tokens[1..], s[|text|..], captures);
        }
      } else {
        GroupFits(tokens[0], named, true, s, captures);
        GroupFits(tokens[0], rule, false, s, captures);
        if captures != [] && captures[0] <= s {
          NamedIsWithinRule(tokens[1..], s[|captures[0]|..], captures[1..]);
        }
      }
    }
  }

  predicate Accepts(atoms: seq<Atom>, s: string) {
    FullMatch(atoms, s).Some?
  }

  /** A path with no dot that the rule pattern reads. */
  function Dotless(tokens: seq<Token>): string {
    if tokens == [] then ""
    else (if tokens[0].Literal? then WithoutDots(tokens[0].text) else "x") + Dotless(tokens[1..])
  }

  function WithoutDots(text: string): (r: string)
    ensures |r| == |text| && forall i :: 0 <= i < |r| ==> r[i] == if text[i] == '.' then 'x' else text[i]
  {
    seq(|text|, i requires 0 <= i < |text| => if text[i] == '.' then 'x' else text[i])
  }

  function Crosses(tokens: seq<Token>): seq<string> {
    if tokens == [] then [] else if tokens[0].Literal? then Crosses(tokens[1..]) else ["x"] + Crosses(tokens[1..])
  }

  lemma {:induction false} DotlessFits(tokens: seq<Token>)
    requires PlainLiterals(tokens)
    ensures Fits(Pattern(tokens, false), Dotless(tokens), Crosses(tokens)) && '.' !in Dotless(tokens)
  {
    if tokens != [] {
      var s, rest, tail := Dotless(tokens), Pattern(tokens[1..], false), Dotless(tokens[1..]);
      DotlessFits(tokens[1..]);
      if tokens[0].Literal? {
        var text := tokens[0].text;
        assert s[..|text|] == WithoutDots(text) && s[|text|..] == tail;
        assert Reads(text, false, WithoutDots(text));
        LiteralFits(text, false, rest, s, Crosses(tokens));
      } else {
        assert s[1..] == tail && Crosses(tokens)[1..] == Crosses(tokens[1..]);
        GroupFits(tokens[0], rest, false, s, Crosses(tokens));
      }
    }
  }

  lemma {:induction false} DotsStay(tokens: seq<Token>, captures: seq<string>)
    requires ValidCaptures(tokens, captures) && HasDot(tokens)
    ensures '.' in Substitute(tokens, captures)
  {
    if !(tokens[0].Literal? && '.' in tokens[0].text) {
      assert HasDot(tokens[1..]);
      DotsStay(tokens[1..], if tokens[0].Literal? then captures else captures[1..]);
    }
  }

  /** The rule pattern accepts every path the named one does; they accept the same paths exactly when no literal has a '.'. */
  lemma PatternsAgreeIff(template: string)
    requires PlainLiterals(Tokens(template))
    ensures forall s :: Accepts(NamedPattern(template), s) ==> Accepts(RulePattern(template), s)
    ensures (forall s :: Accepts(NamedPattern(template), s) <==> Accepts(RulePattern(template), s)) <==> !HasDot(Tokens(template))
  {
    var tokens := Tokens(template);
    forall s
      ensures Accepts(NamedPattern(template), s) ==> Accepts(RulePattern(template), s)
      ensures !HasDot(tokens) && Accepts(RulePattern(template), s) ==> Accepts(NamedPattern(template), s)
    {
      OneWay(tokens, s);
    }
    if HasDot(tokens) {
      DotlessFits(tokens);
      MatchIsGreediest(RulePattern(template), Dotless(tokens), Crosses(tokens));
      if Accepts(NamedPattern(template), Dotless(tokens)) {
        var captures := FullMatch(NamedPattern(template), Dotless(tokens)).value;
        MatchFits(NamedPattern(template), Dotless(tokens));
        FitsIffSubstitutes(tokens, Dotless(tokens), captures);
        DotsStay(tokens, captures);
      }
      assert !Accepts(NamedPattern(template), Dotless(tokens)) && Accepts(RulePattern(template), Dotless(tokens));
    }
  }

  lemma OneWay(tokens: seq<Token>, s: string)
    requires PlainLiterals(tokens)
    ensures Accepts(Pattern(tokens, true), s) ==> Accepts(Pattern(tokens, false), s)
    ensures !HasDot(tokens) && Accepts(Pattern(tokens, false), s) ==> Accepts(Pattern(tokens, true), s)
  {
    if Accepts(Pattern(tokens, true), s) {
      var captures := FullMatch(Pattern(tokens, true), s).value;
      MatchFits(Pattern(tokens, true), s);
      NamedIsWithinRule(tokens, s, captures);
      MatchIsGreediest(Pattern(tokens, false), s, captures);
    }
    if !HasDot(tokens) && Accepts(Pattern(tokens, false), s) {
      var captures := FullMatch(Pattern(tokens, false), s).value;
      MatchFits(Pattern(tokens, false), s);
      NamedIsWithinRule(tokens, s, captures);
      MatchIsGreediest(Pattern(tokens, true), s, captures);
    }
  }

  /** Extracting parameters and substituting them back gives the path; every path built from the template is extracted. */
  lemma ExtractionRoundTrip(template: string, s: string)
    ensures FullMatch(NamedPattern(template), s).Some? ==>
      var captures := FullMatch(NamedPattern(template), s).value;
      ValidCaptures(Tokens(template), captures) && Substitute(Tokens(template), captures) == s
    ensures forall captures :: ValidCaptures(Tokens(template), captures) && Substitute(Tokens(template), captures) == s ==>
      FullMatch(NamedPattern(template), s).Some? && Greedier(FullMatch(NamedPattern(template), s).value, captures)
  {
    var tokens := Tokens(template);
    if FullMatch(NamedPattern(template), s).Some? {
      MatchFits(NamedPattern(template), s);
      FitsIffSubstitutes(tokens, s, FullMatch(NamedPattern(template), s).value);
    }
    forall captures | ValidCaptures(tokens, captures) && Substitute(tokens, captures) == s
      ensures FullMatch(NamedPattern(template), s).Some? && Greedier(FullMatch(NamedPattern(template), s).value, captures)
    {
      FitsIffSubstitutes(tokens, s, captures);
      MatchIsGreediest(NamedPattern(template), s, captures);
    }
  }
}
