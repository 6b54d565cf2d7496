/** Splitting and joining on one separator character, stripping, and code-point order with sorting. */
module Strings {

  /** The character joins the first part. */
  function ExtendHead(c: char, parts: seq<string>): seq<string>
    requires parts != []
  {
    [[c] + parts[0]] + parts[1..]
  }

  function Split(s: string, sep: char): (r: seq<string>)
    ensures |r| >= 1
    ensures forall c :: c in r ==> sep !in c
  {
    if s == "" then [""]
    else if s[0] == sep then [""] + Split(s[1..], sep)
    else ExtendHead(s[0], Split(s[1..], sep))
  }

  function Join(parts: seq<string>, sep: char): string {
    if parts == [] then "" else if |parts| == 1 then parts[0] else parts[0] + [sep] + Join(parts[1..], sep)
  }

  lemma SplitHead(c: char, s: string, sep: char)
    ensures Split([c] + s, sep) == if c == sep then [""] + Split(s, sep) else ExtendHead(c, Split(s, sep))
  {
    assert ([c] + s)[1..] == s;
  }

  lemma ExtendHeadOfSum(c: char, x: seq<string>, y: seq<string>)
    requires x != []
    ensures ExtendHead(c, x + y) == ExtendHead(c, x) + y
  {
  }

  /** One more character in front, when the rest is known to split at the separator. */
  lemma SplitStep(c: char, x: string, xs: seq<string>, y: seq<string>, whole: string, sep: char)
    requires Split(x, sep) == xs && Split(whole, sep) == xs + y
    ensures Split([c] + whole, sep) == Split([c] + x, sep) + y
  {
    SplitHead(c, x, sep);
    SplitHead(c, whole, sep);
    if c == sep {
      PrependToSum("", xs, y);
    } else {
      ExtendHeadOfSum(c, xs, y);
    }
  }

  lemma PrependToSum(a: string, x: seq<string>, y: seq<string>)
    ensures [a] + (x + y) == [a] + x + y
  {
  }

  lemma {:induction false} SplitAtSeparator(a: string, b: string, sep: char)
    ensures Split(a + [sep] + b, sep) == Split(a, sep) + Split(b, sep)
    decreases |a|
  {
    if a == "" {
      assert a + [sep] + b == [sep] + b;
      SplitHead(sep, b, sep);
    } else {
      var tail := a[1..];
      var whole := tail + [sep] + b;
      SplitAtSeparator(tail, b, sep);
      SplitStep(a[0], tail, Split(tail, sep), Split(b, sep), whole, sep);
      assert [a[0]] + tail == a;
      assert [a[0]] + whole == a + [sep] + b;
    }
  }

  lemma {:induction false} SplitOfPlain(c: string, sep: char)
    requires sep !in c
    ensures Split(c, sep) == [c]
  {
    if c != "" {
      SplitOfPlain(c[1..], sep);
      assert [c[0]] + c[1..] == c;
    }
  }

  /** Joining separator-free parts and splitting again gives them back. */
  lemma {:induction false} SplitOfJoin(parts: seq<string>, sep: char)
    requires parts != [] && forall c :: c in parts ==> sep !in c
    ensures Split(Join(parts, sep), sep) == parts
  {
    SplitOfPlain(parts[0], sep);
    if |parts| > 1 {
      SplitOfJoin(parts[1..], sep);
      SplitAtSeparator(parts[0], Join(parts[1..], sep), sep);
    }
  }

  lemma JoinExtended(c: char, parts: seq<string>, sep: char)
    requires parts != []
    ensures Join(ExtendHead(c, parts), sep) == [c] + Join(parts, sep)
  {
    assert ExtendHead(c, parts)[1..] == parts[1..];
  }

  /** Splitting loses nothing. */
  lemma {:induction false} JoinOfSplit(s: string, sep: char)
    ensures Join(Split(s, sep), sep) == s
  {
    if s != "" {
      var rest := Split(s[1..], sep);
      JoinOfSplit(s[1..], sep);
      assert [s[0]] + s[1..] == s;
      if s[0] == sep {
        assert ([""] + rest)[1..] == rest;
      } else {
        JoinExtended(s[0], rest, sep);
      }
    }
  }

  /** Splitting invents no characters. */
  lemma {:induction false} SplitKeepsChars(s: string, sep: char, absent: char)
    requires absent !in s
    ensures forall c :: c in Split(s, sep) ==> absent !in c
  {
    if s != "" { SplitKeepsChars(s[1..], sep, absent); }
  }

  // ----- Order -----

  /** Python's order on strings, by code point. */
  predicate Leq(a: string, b: string) {
    a == "" || (b != "" && (a[0] < b[0] || (a[0] == b[0] && Leq(a[1..], b[1..]))))
  }

  lemma {:induction false} LeqIsTotal(a: string, b: string)
    ensures Leq(a, b) || Leq(b, a)
  {
    if a != "" && b != "" && a[0] == b[0] { LeqIsTotal(a[1..], b[1..]); }
  }

  lemma {:induction false} LeqIsAntisymmetric(a: string, b: string)
    requires Leq(a, b) && Leq(b, a)
    ensures a == b
  {
    if a != "" {
      LeqIsAntisymmetric(a[1..], b[1..]);
      assert a == [a[0]] + a[1..] && b == [b[0]] + b[1..];
    }
  }

  lemma {:induction false} LeqIsTransitive(a: string, b: string, c: string)
    requires Leq(a, b) && Leq(b, c)
    ensures Leq(a, c)
  {
    if a != "" && a[0] == b[0] && b[0] == c[0] { LeqIsTransitive(a[1..], b[1..], c[1..]); }
  }

  ghost predicate Ordered(s: seq<string>) {
    forall i, j :: 0 <= i < j < |s| ==> Leq(s[i], s[j])
  }

  function Insert(x: string, s: seq<string>): (r: seq<string>)
    ensures multiset(r) == multiset(s) + multiset{x}
  {
    if s == [] then [x]
    else if Leq(x, s[0]) then [x] + s
    else
      assert s == [s[0]] + s[1..];
      [s[0]] + Insert(x, s[1..])
  }

  lemma {:induction false} InsertKeepsOrder(x: string, s: seq<string>)
    requires Ordered(s)
    ensures Ordered(Insert(x, s))
  {
    if s != [] {
      if Leq(x, s[0]) {
        forall j | 0 <= j < |s| ensures Leq(x, s[j]) {
          if j > 0 { LeqIsTransitive(x, s[0], s[j]); }
        }
      } else {
        InsertKeepsOrder(x, s[1..]);
        LeqIsTotal(x, s[0]);
        var r := Insert(x, s[1..]);
        forall j | 0 <= j < |r| ensures Leq(s[0], r[j]) {
          assert r[j] in multiset(r);
          if r[j] != x {
            assert r[j] in multiset(s[1..]);
            var k :| 0 <= k < |s[1..]| && s[1..][k] == r[j];
            assert s[k + 1] == r[j];
          }
        }
      }
    }
  }

  /** `sorted`. */
  function Sort(s: seq<string>): (r: seq<string>)
    ensures multiset(r) == multiset(s)
  {
    if s == [] then []
    else
      assert s == [s[0]] + s[1..];
      Insert(s[0], Sort(s[1..]))
  }

  lemma {:induction false} SortIsOrdered(s: seq<string>)
    ensures Ordered(Sort(s))
  {
    if s != [] {
      SortIsOrdered(s[1..]);
      InsertKeepsOrder(s[0], Sort(s[1..]));
    }
  }

  /** Two ordered sequences with the same elements are the same sequence. */
  lemma {:induction false} OrderedIsUnique(a: seq<string>, b: seq<string>)
    requires Ordered(a) && Ordered(b) && multiset(a) == multiset(b)
    ensures a == b
  {
    assert |multiset(a)| == |a| && |multiset(b)| == |b|;
    if a != [] {
      SameHead(a, b);
      TailElements(a);
      TailElements(b);
      OrderedIsUnique(a[1..], b[1..]);
      assert a == [a[0]] + a[1..] && b == [b[0]] + b[1..];
    }
  }

  lemma SameHead(a: seq<string>, b: seq<string>)
    requires Ordered(a) && Ordered(b) && multiset(a) == multiset(b) && a != [] && b != []
    ensures a[0] == b[0]
  {
    HeadIsLeast(a, b);
    HeadIsLeast(b, a);
    LeqIsAntisymmetric(a[0], b[0]);
  }

  lemma TailElements(a: seq<string>)
    requires a != []
    ensures multiset(a[1..]) == multiset(a) - multiset{a[0]}
    ensures Ordered(a) ==> Ordered(a[1..])
  {
    assert a == [a[0]] + a[1..];
  }

  lemma HeadIsLeast(a: seq<string>, b: seq<string>)
    requires Ordered(a) && multiset(a) == multiset(b) && a != [] && b != []
    ensures Leq(a[0], b[0])
  {
    assert b[0] in multiset(b);
    var i :| 0 <= i < |a| && a[i] == b[0];
    LeqIsTotal(a[0], a[0]);
  }

  /** Sorting depends only on the elements. */
  lemma SortDependsOnElements(a: seq<string>, b: seq<string>)
    ensures Sort(a) == Sort(b) <==> multiset(a) == multiset(b)
  {
    SortIsOrdered(a);
    SortIsOrdered(b);
    if multiset(a) == multiset(b) {
      OrderedIsUnique(Sort(a), Sort(b));
    }
  }

  // ----- Stripping -----

  /** White space that `str.strip` removes, for Latin text. */
  predicate IsSpace(c: char) {
    c in {' ', '\t', '\n', '\r', '\U{000B}', '\U{000C}', '\U{001C}', '\U{001D}', '\U{001E}', '\U{001F}', '\U{0085}', '\U{00A0}'}
  }

  /** By code: tab to carriage return, the four separators and the space, next line, no-break space. */
  lemma SpacesAre(c: char)
    ensures IsSpace(c) <==> 9 <= c as int <= 13 || 28 <= c as int <= 32 || c as int == 133 || c as int == 160
  {
    assert '\t' as int == 9 && '\n' as int == 10 && '\r' as int == 13;
  }

  function StripLeft(s: string): (r: string)
    ensures r == "" || !IsSpace(r[0])
    ensures forall c :: c in r ==> c in s
  {
    if s != "" && IsSpace(s[0]) then StripLeft(s[1..]) else s
  }

  function StripRight(s: string): (r: string)
    ensures r == "" || !IsSpace(r[|r| - 1])
    ensures r <= s
  {
    if s != "" && IsSpace(s[|s| - 1]) then StripRight(s[..|s| - 1]) else s
  }

  function Strip(s: string): (r: string)
    ensures r != "" ==> !IsSpace(r[0]) && !IsSpace(r[|r| - 1])
    ensures forall c :: c in r ==> c in s
  {
    StripRight(StripLeft(s))
  }

  ghost predicate AllSpace(s: string) {
    forall c :: c in s ==> IsSpace(c)
  }

  lemma {:induction false} StripLeftSplits(s: string) returns (left: string)
    ensures s == left + StripLeft(s) && AllSpace(left)
  {
    if s != "" && IsSpace(s[0]) {
      var rest := StripLeftSplits(s[1..]);
      left := [s[0]] + rest;
      assert s == [s[0]] + s[1..];
    } else {
      left := "";
    }
  }

  lemma {:induction false} StripRightSplits(s: string) returns (right: string)
    ensures s == StripRight(s) + right && AllSpace(right)
  {
    if s != "" && IsSpace(s[|s| - 1]) {
      var rest := StripRightSplits(s[..|s| - 1]);
      right := rest + [s[|s| - 1]];
      assert s == s[..|s| - 1] + [s[|s| - 1]];
    } else {
      right := "";
    }
  }

  /** What stripping takes away is white space at the ends. */
  lemma StripIsExact(s: string)
    ensures exists left, right :: AllSpace(left) && AllSpace(right) && s == left + Strip(s) + right
  {
    var left := StripLeftSplits(s);
    var right := StripRightSplits(StripLeft(s));
    assert s == left + Strip(s) + right;
  }

  /** The text between white space, itself not empty and without any at its ends. */
  ghost predicate Trims(s: string, n: string) {
    && n != "" && !IsSpace(n[0]) && !IsSpace(n[|n| - 1])
    && exists left, right :: AllSpace(left) && AllSpace(right) && s == left + n + right
  }

  lemma TrimmedChars(s: string, left: string, n: string, right: string)
    requires s == left + n + right && n != "" && !IsSpace(n[0]) && !IsSpace(n[|n| - 1]) && AllSpace(left) && AllSpace(right)
    ensures !IsSpace(s[|left|]) && !IsSpace(s[|left| + |n| - 1]) && s[|left|..|left| + |n|] == n
    ensures forall i :: 0 <= i < |left| || |left| + |n| <= i < |s| ==> IsSpace(s[i])
  {
    assert s[|left|] == n[0] && s[|left| + |n| - 1] == n[|n| - 1];
    forall i | 0 <= i < |left| || |left| + |n| <= i < |s| ensures IsSpace(s[i]) {
      assert if i < |left| then s[i] == left[i] else s[i] == right[i - |left| - |n|];
    }
  }

  /** Stripping gives the text between white space, if there is any. */
  lemma StripTrims(s: string, n: string)
    ensures Strip(s) != "" && Strip(s) == n <==> Trims(s, n)
  {
    StripIsExact(s);
    if Trims(s, n) {
      var left, right :| AllSpace(left) && AllSpace(right) && s == left + n + right;
      TrimmedChars(s, left, n, right);
      var left', right' :| AllSpace(left') && AllSpace(right') && s == left' + Strip(s) + right';
      if Strip(s) != "" {
        TrimmedChars(s, left', Strip(s), right');
      }
    }
  }

  /** Stripping twice changes nothing more. */
  lemma StripIsIdempotent(s: string)
    ensures Strip(Strip(s)) == Strip(s)
  {
  }
}
