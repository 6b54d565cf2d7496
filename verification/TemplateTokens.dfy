/** What the tokens of a template are: the only reading of it as literals and parameters that misses no parameter. */
module TemplateTokens {
  import opened Templates

  /** From '<' to the next '>', with something in between. */
  ghost predicate Brackets(s: string, i: nat, j: nat) {
    i + 1 < j < |s| && s[i] == '<' && s[j] == '>' && forall k :: i < k < j ==> s[k] != '>'
  }

  /** A parameter could be read from here. */
  ghost predicate Opens(s: string, i: nat) {
    exists j: nat :: Brackets(s, i, j)
  }

  /** What may stand between the brackets: not empty, without '>', and a path exactly if it says so. */
  predicate Parameter(t: Token) {
    match t
    case Literal(_) => false
    case Plain(name) => name != "" && '>' !in name && !("path:" <= name)
    case Path(name) => '>' !in name
  }

  /** Literals and parameters in turn; no parameter could be read earlier, in a literal or from one into what follows. */
  ghost predicate Alternate(tokens: seq<Token>) {
    && tokens != [] && tokens[0].Literal?
    && if |tokens| == 1 then forall i: nat :: !Opens(tokens[0].text, i)
       else Parameter(tokens[1]) && NoneBefore(tokens[0].text, tokens[1]) && Alternate(tokens[2..])
  }

  ghost predicate NoneBefore(text: string, t: Token) {
    forall i: nat :: i < |text| ==> !Opens(text + Written(t), i)
  }

  lemma {:induction false} CloseIsFirst(s: string, i: nat)
    requires i <= |s|
    ensures forall k :: i <= k < Close(s, i) ==> s[k] != '>'
    decreases |s| - i
  {
    if i < |s| && s[i] != '>' {
      CloseIsFirst(s, i + 1);
    }
  }

  lemma CloseAt(s: string, i: nat, j: nat)
    requires i <= j < |s| && s[j] == '>' && forall k :: i <= k < j ==> s[k] != '>'
    ensures Close(s, i) == j
  {
    CloseIsFirst(s, i);
  }

  lemma OpensIff(s: string, i: nat)
    requires i < |s|
    ensures TokenAt(s, i) <==> Opens(s, i)
    ensures TokenAt(s, i) ==> Brackets(s, i, Close(s, i + 1))
  {
    CloseIsFirst(s, i + 1);
    if j: nat :| Brackets(s, i, j) {
      CloseAt(s, i + 1, j);
    }
    if TokenAt(s, i) {
      assert Brackets(s, i, Close(s, i + 1));
    }
  }

  lemma {:induction false} NextIsFirst(s: string, i: nat)
    requires i <= |s|
    ensures forall k :: i <= k < NextToken(s, i) ==> !TokenAt(s, k)
    decreases |s| - i
  {
    if i < |s| && !TokenAt(s, i) {
      NextIsFirst(s, i + 1);
    }
  }

  lemma NextAt(s: string, i: nat, j: nat)
    requires i <= j <= |s| && (j < |s| ==> TokenAt(s, j)) && forall k :: i <= k < j ==> !TokenAt(s, k)
    ensures NextToken(s, i) == j
  {
    NextIsFirst(s, i);
  }

  /** Whether a parameter could be read does not depend on what stands before, nor on what follows a bracket. */
  lemma OpensWithin(s: string, a: nat, b: nat, i: nat)
    requires a + i < b - 1 && b <= |s| && (b == |s| || s[b - 1] == '>')
    ensures Opens(s[a..b], i) <==> Opens(s, a + i)
  {
    var part, at := s[a..b], a + i;
    if j: nat :| Brackets(part, i, j) {
      assert forall k :: at < k < a + j ==> s[k] == part[k - a];
      assert Brackets(s, at, a + j);
    }
    if j: nat :| Brackets(s, at, j) {
      assert forall k :: i < k < j - a ==> part[k] == s[a + k];
      assert Brackets(part, i, j - a);
    }
  }

  lemma LastOpens(s: string, a: nat, i: nat)
    requires a <= |s|
    ensures Opens(s[a..], i) ==> a + i < |s| - 1 && Opens(s, a + i)
  {
    if Opens(s[a..], i) {
      OpensWithin(s, a, |s|, i);
      assert s[a..] == s[a..|s|];
    }
  }

  // ----- The tokens alternate -----

  lemma LastAlternates(s: string, cursor: nat)
    requires cursor <= |s| && NextToken(s, cursor) == |s|
    ensures Alternate([Literal(s[cursor..])])
  {
    NextIsFirst(s, cursor);
    forall i: nat ensures !Opens(s[cursor..], i) {
      LastOpens(s, cursor, i);
      if cursor + i < |s| {
        OpensIff(s, cursor + i);
      }
    }
  }

  lemma NoneBeforeNext(s: string, cursor: nat, text: string, t: Token, end: nat)
    requires cursor + |text| < end < |s| && s[end] == '>' && s[cursor..end + 1] == text + Written(t)
    ensures NoneBefore(text, t) <==> forall k :: cursor <= k < cursor + |text| ==> !TokenAt(s, k)
  {
    forall i: nat | i < |text| ensures Opens(text + Written(t), i) <==> TokenAt(s, cursor + i) {
      OpensWithin(s, cursor, end + 1, i);
      OpensIff(s, cursor + i);
    }
    if NoneBefore(text, t) {
      forall k | cursor <= k < cursor + |text| ensures !TokenAt(s, k) {
        assert !Opens(text + Written(t), k - cursor);
      }
    }
  }

  lemma OneMorePair(text: string, t: Token, rest: seq<Token>)
    requires Parameter(t) && NoneBefore(text, t) && Alternate(rest)
    ensures Alternate([Literal(text), t] + rest)
  {
    assert ([Literal(text), t] + rest)[2..] == rest;
  }

  lemma StepWritten(s: string, cursor: nat, start: nat, end: nat)
    requires cursor <= start < end < |s| && s[start] == '<' && s[end] == '>'
    ensures s[cursor..end + 1] == s[cursor..start] + Written(Classified(s[start + 1..end]))
  {
    WrittenBack(s[start + 1..end]);
    assert s[cursor..end + 1] == s[cursor..start] + ("<" + s[start + 1..end] + ">");
  }

  lemma StepAlternates(s: string, cursor: nat, start: nat, rest: seq<Token>)
    requires cursor <= |s| && start == NextToken(s, cursor) < |s| && Alternate(rest)
    ensures Alternate(Step(s, cursor, start) + rest)
  {
    var end := Close(s, start + 1);
    var text, t := s[cursor..start], Classified(s[start + 1..end]);
    StepWritten(s, cursor, start, end);
    NextIsFirst(s, cursor);
    NoneBeforeNext(s, cursor, text, t, end);
    CloseIsFirst(s, start + 1);
    ContentIsParameter(s[start + 1..end]);
    OneMorePair(text, t, rest);
  }

  lemma ContentIsParameter(content: string)
    requires content != "" && '>' !in content
    ensures Parameter(Classified(content))
  {
  }

  lemma {:induction false} TokensAlternate(s: string, cursor: nat)
    requires cursor <= |s|
    ensures Alternate(TokensFrom(s, cursor))
    decreases |s| - cursor
  {
    var start := NextToken(s, cursor);
    if start == |s| {
      LastAlternates(s, cursor);
    } else {
      TokensAlternate(s, Close(s, start + 1) + 1);
      StepAlternates(s, cursor, start, TokensFrom(s, Close(s, start + 1) + 1));
    }
  }

  // ----- Nothing else does -----

  lemma OnlyLast(text: string, s: string, cursor: nat)
    requires cursor <= |s| && text == s[cursor..] && forall i: nat :: !Opens(text, i)
    ensures TokensFrom(s, cursor) == [Literal(text)]
  {
    assert s[cursor..|s|] == text;
    forall k | cursor <= k < |s| ensures !TokenAt(s, k) {
      OpensIff(s, k);
      if k + 1 < |s| {
        OpensWithin(s, cursor, |s|, k - cursor);
      }
    }
    NextAt(s, cursor, |s|);
  }

  lemma ParameterIsClassified(t: Token) returns (content: string)
    requires Parameter(t)
    ensures content != "" && '>' !in content && Classified(content) == t && Written(t) == "<" + content + ">"
  {
    if t.Path? {
      content := "path:" + t.name;
      assert content[5..] == t.name;
    } else {
      content := t.name;
    }
  }

  lemma PartOfPart(s: string, a: nat, b: nat, x: nat, y: nat)
    requires a <= b <= |s| && x <= y <= b - a
    ensures s[a..b][x..y] == s[a + x..a + y]
  {
    var part := s[a..b];
    forall k | 0 <= k < y - x ensures part[x..y][k] == s[a + x..a + y][k] {
      assert part[x..y][k] == part[x + k] && s[a + x..a + y][k] == s[a + x + k];
    }
  }

  lemma ContentBetween(s: string, cursor: nat, text: string, content: string, end: nat)
    requires cursor <= end < |s| && s[cursor..end + 1] == text + ("<" + content + ">") && content != "" && '>' !in content
    ensures var start := cursor + |text|;
            start + 1 + |content| == end && Brackets(s, start, end) && s[cursor..start] == text && s[start + 1..end] == content
  {
    var start, part := cursor + |text|, s[cursor..end + 1];
    assert |part| == |text| + |content| + 2;
    assert part[..|text|] == text && part[|text| + 1..|text| + 1 + |content|] == content;
    assert s[start] == part[|text|] && s[end] == part[|text| + 1 + |content|];
    PartOfPart(s, cursor, end + 1, 0, |text|);
    PartOfPart(s, cursor, end + 1, |text| + 1, |text| + 1 + |content|);
    forall k | start < k < end ensures s[k] != '>' {
      assert s[k] == part[k - cursor] == content[k - start - 1];
    }
  }

  /** The next step reads this literal and this parameter. */
  lemma OnlyStep(text: string, t: Token, s: string, cursor: nat, end: nat)
    requires Parameter(t) && NoneBefore(text, t)
    requires cursor <= end < |s| && s[cursor..end + 1] == text + Written(t)
    ensures var start := NextToken(s, cursor); start < |s| && Close(s, start + 1) == end && Step(s, cursor, start) == [Literal(text), t]
  {
    var content := ParameterIsClassified(t);
    var start := cursor + |text|;
    ContentBetween(s, cursor, text, content, end);
    OpensIff(s, start);
    CloseAt(s, start + 1, end);
    NoneBeforeNext(s, cursor, text, t, end);
    NextAt(s, cursor, start);
  }

  /** The end of the first parameter, and what is left. */
  lemma FirstPair(a: string, b: string, c: string, s: string, cursor: nat) returns (end: nat)
    requires cursor <= |s| && a + (b + c) == s[cursor..] && b != ""
    ensures cursor <= end < |s| && s[cursor..end + 1] == a + b && s[end + 1..] == c
  {
    end := cursor + |a| + |b| - 1;
    var rest := s[cursor..];
    assert rest[..|a| + |b|] == a + b && rest[|a| + |b|..] == c;
  }

  lemma PairIsStep(text: string, t: Token, rest: seq<Token>, s: string, cursor: nat) returns (next: nat)
    requires cursor <= |s| && Parameter(t) && NoneBefore(text, t) && Rendered([Literal(text), t] + rest) == s[cursor..]
    ensures cursor < next <= |s| && Rendered(rest) == s[next..]
    ensures TokensFrom(s, cursor) == [Literal(text), t] + TokensFrom(s, next)
  {
    RenderTwo(Literal(text), t, rest);
    var content := ParameterIsClassified(t);
    var end := FirstPair(text, Written(t), Rendered(rest), s, cursor);
    StepIsFirst(text, t, s, cursor, end);
    next := end + 1;
  }

  lemma StepIsFirst(text: string, t: Token, s: string, cursor: nat, end: nat)
    requires Parameter(t) && NoneBefore(text, t)
    requires cursor <= end < |s| && s[cursor..end + 1] == text + Written(t)
    ensures TokensFrom(s, cursor) == [Literal(text), t] + TokensFrom(s, end + 1)
  {
    OnlyStep(text, t, s, cursor, end);
    KnownStep(s, cursor, NextToken(s, cursor), end, [Literal(text), t]);
  }

  lemma KnownStep(s: string, cursor: nat, start: nat, end: nat, step: seq<Token>)
    requires cursor <= |s| && start == NextToken(s, cursor) < |s| && end == Close(s, start + 1) && step == Step(s, cursor, start)
    ensures TokensFrom(s, cursor) == step + TokensFrom(s, end + 1)
  {
    FirstStep(s, cursor, start);
  }

  lemma {:induction false} AlternateAreTokens(tokens: seq<Token>, s: string, cursor: nat)
    requires cursor <= |s| && Alternate(tokens) && Rendered(tokens) == s[cursor..]
    ensures TokensFrom(s, cursor) == tokens
    decreases |tokens|
  {
    if |tokens| == 1 {
      OneLiteral(tokens, s, cursor);
    } else {
      var rest := tokens[2..];
      assert tokens == [Literal(tokens[0].text), tokens[1]] + rest;
      var next := PairIsStep(tokens[0].text, tokens[1], rest, s, cursor);
      AlternateAreTokens(rest, s, next);
    }
  }

  lemma OneLiteral(tokens: seq<Token>, s: string, cursor: nat)
    requires cursor <= |s| && |tokens| == 1 && Alternate(tokens) && Rendered(tokens) == s[cursor..]
    ensures TokensFrom(s, cursor) == tokens
  {
    RenderOne(tokens[0]);
    assert tokens == [tokens[0]];
    OnlyLast(tokens[0].text, s, cursor);
  }

  /** The tokens of a template are the only ones that alternate so and write out as the template. */
  lemma TokensAreExact(template: string, tokens: seq<Token>)
    ensures tokens == Tokens(template) <==> Alternate(tokens) && Rendered(tokens) == template
  {
    TokensAlternate(template, 0);
    RenderingRebuilds(template, 0);
    if Alternate(tokens) && Rendered(tokens) == template {
      AlternateAreTokens(tokens, template, 0);
    }
  }
}
