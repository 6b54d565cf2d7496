/**
 * The lexical artifact-path validator (`_validate_artifact_path`) over `posixpath.normpath`, and what it
 * decides: a relative path is rejected exactly if, read component by component, it ever steps above its
 * start; an accepted path names the same place with nothing left to resolve.
 */
module ArtifactPath {
  import opened Wrappers
  import opened Strings

  // ----- normpath -----

  /** One component of the normalisation loop. */
  function Resolve(stack: seq<string>, comp: string, absolute: bool): seq<string> {
    if comp == "" || comp == "." then stack
    else if comp != ".." || (!absolute && stack == []) || (stack != [] && stack[|stack| - 1] == "..") then stack + [comp]
    else if stack != [] then stack[..|stack| - 1]
    else stack
  }

  function ResolveAll(comps: seq<string>, absolute: bool): seq<string> {
    if comps == [] then [] else Resolve(ResolveAll(comps[..|comps| - 1], absolute), comps[|comps| - 1], absolute)
  }

  function LeadingSlashes(path: string): string {
    if path == "" || path[0] != '/' then ""
    else if |path| >= 2 && path[1] == '/' && !(|path| >= 3 && path[2] == '/') then "//"
    else "/"
  }

  /** Two slashes at the start are kept, more or fewer become one. */
  lemma LeadingIsExact(path: string)
    ensures LeadingSlashes(path) == "" <==> !("/" <= path)
    ensures LeadingSlashes(path) == "//" <==> "//" <= path && !("///" <= path)
    ensures LeadingSlashes(path) in {"", "/", "//"}
  {
  }

  /** `posixpath.normpath`. */
  method NormPath(path: string) returns (r: string)
    ensures r == Normalized(path)
  {
    if path == "" {
      return ".";
    }
    var slashes := LeadingSlashes(path);
    var comps := Split(path, '/');
    var stack: seq<string> := [];
    for i := 0 to |comps|
      invariant stack == ResolveAll(comps[..i], slashes != "")
    {
      assert comps[..i + 1][..i] == comps[..i];
      stack := Resolve(stack, comps[i], slashes != "");
    }
    assert comps[..|comps|] == comps;
    r := slashes + Join(stack, '/');
    if r == "" {
      r := ".";
    }
  }

  function Normalized(path: string): (r: string) {
    if path == "" then "."
    else
      var slashes := LeadingSlashes(path);
      var r := slashes + Join(ResolveAll(Split(path, '/'), slashes != ""), '/');
      if r == "" then "." else r
  }

  // ----- The validator -----

  datatype PathError = Backslash | Absolute | Traversal

  predicate Contains(s: string, part: string) {
    exists i :: 0 <= i <= |s| && part <= s[i..]
  }

  predicate Traverses(normalized: string) {
    normalized == ".." || "../" <= normalized || Contains(normalized, "/../")
  }

  function Validated(path: string): (r: Result<Option<string>, PathError>) {
    if '\\' in path then Err(Backslash)
    else
      var normalized := Normalized(path);
      if normalized != "" && normalized[0] == '/' then Err(Absolute)
      else if Traverses(normalized) then Err(Traversal)
      else if normalized == "." then Ok(None)
      else Ok(Some(normalized))
  }

  /**
   * `_validate_artifact_path`: an error exactly for a backslash, an absolute path, or one that climbs above its
   * start; nothing exactly for a path that leads to the start; otherwise the names that lead where the path does.
   */
  method ValidateArtifactPath(path: string) returns (r: Result<Option<string>, PathError>)
    ensures r == Validated(path)
    ensures r.Err? <==> '\\' in path || IsAbsolute(path) || StepsAbove(Split(path, '/'))
    ensures r == Err(Backslash) <==> '\\' in path
    ensures r == Err(Absolute) <==> '\\' !in path && IsAbsolute(path)
    ensures r.Ok? ==> (r.value.None? <==> Location(Split(path, '/'), 0) == [])
    ensures r.Ok? && r.value.Some? ==>
              Split(r.value.value, '/') == Location(Split(path, '/'), 0) && forall c :: c in Split(r.value.value, '/') ==> IsName(c)
  {
    ValidatorIsExact(path);
    if '\\' in path {
      return Err(Backslash);
    }
    var normalized := NormPath(path);
    if normalized != "" && normalized[0] == '/' {
      return Err(Absolute);
    }
    if Traverses(normalized) {
      return Err(Traversal);
    }
    return if normalized == "." then Ok(None) else Ok(Some(normalized));
  }

  // ----- Reference: running depth, and location read from the right -----

  predicate IsName(comp: string) {
    comp != "" && comp != "." && comp != ".."
  }

  /** How far below the start the components lead. */
  function Depth(comps: seq<string>): int {
    if comps == [] then 0
    else
      var last := comps[|comps| - 1];
      Depth(comps[..|comps| - 1]) + (if last == ".." then -1 else if IsName(last) then 1 else 0)
  }

  /** Some prefix leads above the start. */
  ghost predicate StepsAbove(comps: seq<string>) {
    exists n :: 0 <= n <= |comps| && Depth(comps[..n]) < 0
  }

  /** The names left when each ".." cancels the nearest uncancelled name before it, `skip` of them pending. */
  function Location(comps: seq<string>, skip: nat): seq<string> {
    if comps == [] then []
    else
      var front, last := comps[..|comps| - 1], comps[|comps| - 1];
      if last == ".." then Location(front, skip + 1)
      else if !IsName(last) then Location(front, skip)
      else if skip > 0 then Location(front, skip - 1)
      else Location(front, 0) + [last]
  }

  lemma PrefixStaysBelow(comps: seq<string>)
    requires comps != [] && !StepsAbove(comps)
    ensures !StepsAbove(comps[..|comps| - 1]) && Depth(comps) >= 0
  {
    var front := comps[..|comps| - 1];
    assert comps[..|comps|] == comps;
    forall n | 0 <= n <= |front| ensures Depth(front[..n]) >= 0 {
      assert front[..n] == comps[..n];
    }
  }

  /** While the path stays below its start, the stack is names only, as many as the depth, and is the location. */
  lemma {:induction false} StackIsLocation(comps: seq<string>, skip: nat)
    requires !StepsAbove(comps) && skip <= |ResolveAll(comps, false)|
    ensures var stack := ResolveAll(comps, false);
            && |stack| == Depth(comps) && (forall c :: c in stack ==> IsName(c))
            && Location(comps, skip) == stack[..|stack| - skip]
  {
    if comps != [] {
      var front, last := comps[..|comps| - 1], comps[|comps| - 1];
      PrefixStaysBelow(comps);
      StackIsLocation(front, 0);
      var below := ResolveAll(front, false);
      if last == ".." {
        assert below[|below| - 1] in below;
        assert ResolveAll(comps, false) == below[..|below| - 1];
        StackIsLocation(front, skip + 1);
      } else if !IsName(last) {
        StackIsLocation(front, skip);
      } else if skip > 0 {
        StackIsLocation(front, skip - 1);
        assert (below + [last])[..|below| + 1 - skip] == below[..|below| - (skip - 1)];
      }
    }
  }

  lemma DotsStay(stack: seq<string>, comp: string)
    requires stack != [] && stack[0] == ".."
    ensures Resolve(stack, comp, false) != [] && Resolve(stack, comp, false)[0] == ".."
  {
  }

  /** The first step above the start leaves "..", which then stays. */
  lemma {:induction false} AboveKeepsDots(comps: seq<string>)
    requires StepsAbove(comps)
    ensures ResolveAll(comps, false) != [] && ResolveAll(comps, false)[0] == ".."
  {
    var front, last := comps[..|comps| - 1], comps[|comps| - 1];
    var n :| 0 <= n <= |comps| && Depth(comps[..n]) < 0;
    if n < |comps| {
      assert front[..n] == comps[..n];
    }
    if StepsAbove(front) {
      AboveKeepsDots(front);
      DotsStay(ResolveAll(front, false), last);
    } else {
      assert comps[..n] == comps;
      StackIsLocation(front, 0);
      assert front[..|front|] == front;
    }
  }

  lemma {:induction false} StackIsSlashFree(comps: seq<string>)
    requires forall c :: c in comps ==> '/' !in c
    ensures forall c :: c in ResolveAll(comps, false) ==> '/' !in c && c != ""
  {
    if comps != [] {
      StackIsSlashFree(comps[..|comps| - 1]);
      assert comps[|comps| - 1] in comps;
    }
  }

  lemma JoinHead(stack: seq<string>)
    requires stack != [] && stack[0] != ""
    ensures Join(stack, '/') != "" && Join(stack, '/')[0] == stack[0][0]
    ensures |stack| == 1 ==> Join(stack, '/') == stack[0]
    ensures |stack| > 1 ==> stack[0] + "/" <= Join(stack, '/')
  {
  }

  lemma DotsBefore(b: string)
    ensures ".." in Split("../" + b, '/')
  {
    assert "../" + b == ".." + ['/'] + b;
    SplitAtSeparator("..", b, '/');
    SplitOfPlain("..", '/');
  }

  lemma InnerDots(a: string, b: string)
    ensures ".." in Split(a + "/../" + b, '/')
  {
    assert a + "/../" + b == a + ['/'] + ("../" + b);
    SplitAtSeparator(a, "../" + b, '/');
    DotsBefore(b);
  }

  /** "/../" occurs in a string only around a ".." component. */
  lemma DotsAreAComponent(s: string)
    requires Traverses(s)
    ensures ".." in Split(s, '/')
  {
    if s == ".." {
      SplitOfPlain(s, '/');
    } else if "../" <= s {
      DotsBefore(s[3..]);
      assert "../" + s[3..] == s;
    } else {
      var i :| 0 <= i <= |s| && "/../" <= s[i..];
      var a, b := s[..i], s[i..][4..];
      InnerDots(a, b);
      assert s[i..] == "/../" + b;
      assert a + "/../" + b == s;
    }
  }

  /** The normal form of a relative path, as components. */
  lemma NormalFormOfRelative(path: string)
    requires path != "" && path[0] != '/'
    ensures var stack := ResolveAll(Split(path, '/'), false);
            && Normalized(path) == (if stack == [] then "." else Join(stack, '/'))
            && (stack != [] ==> Split(Normalized(path), '/') == stack)
            && (stack != [] ==> Normalized(path)[0] != '/')
  {
    var stack := ResolveAll(Split(path, '/'), false);
    StackIsSlashFree(Split(path, '/'));
    assert "" + Join(stack, '/') == Join(stack, '/');
    if stack != [] {
      assert stack[0] in stack;
      JoinHead(stack);
      SplitOfJoin(stack, '/');
      assert stack[0][0] in stack[0];
    }
  }

  lemma DotsTraverse(stack: seq<string>)
    requires stack != [] && stack[0] == ".."
    ensures Traverses(Join(stack, '/'))
  {
    JoinHead(stack);
    if |stack| > 1 {
      assert stack[0] + "/" == "../";
    }
  }

  lemma TraversalMeansAbove(path: string)
    requires path != "" && path[0] != '/'
    ensures Traverses(Normalized(path)) <==> StepsAbove(Split(path, '/'))
  {
    var comps := Split(path, '/');
    NormalFormOfRelative(path);
    if StepsAbove(comps) {
      AboveKeepsDots(comps);
      DotsTraverse(ResolveAll(comps, false));
    } else if Traverses(Normalized(path)) {
      StackIsLocation(comps, 0);
      DotsAreAComponent(Normalized(path));
      SplitOfPlain(".", '/');
    }
  }

  /** The normal form of a path that stays below its start. */
  lemma AcceptedForm(path: string)
    requires path != "" && path[0] != '/' && !StepsAbove(Split(path, '/'))
    ensures var location := Location(Split(path, '/'), 0);
            && (location == [] <==> Normalized(path) == ".")
            && (location != [] ==> Split(Normalized(path), '/') == location)
            && (forall c :: c in location ==> IsName(c))
  {
    NormalFormOfRelative(path);
    NamesAreLocation(Split(path, '/'));
    NamesAreNotADot(ResolveAll(Split(path, '/'), false), Normalized(path));
  }

  lemma NamesAreLocation(comps: seq<string>)
    requires !StepsAbove(comps)
    ensures Location(comps, 0) == ResolveAll(comps, false) && forall c :: c in Location(comps, 0) ==> IsName(c)
  {
    var stack := ResolveAll(comps, false);
    StackIsLocation(comps, 0);
    assert stack[..|stack| - 0] == stack;
  }

  lemma NamesAreNotADot(stack: seq<string>, normalized: string)
    requires (forall c :: c in stack ==> IsName(c)) && (stack != [] ==> Split(normalized, '/') == stack)
    ensures stack != [] ==> normalized != "."
  {
    SplitOfPlain(".", '/');
    if stack != [] {
      assert stack[0] in stack;
    }
  }

  predicate IsAbsolute(path: string) {
    path != "" && path[0] == '/'
  }

  lemma EmptyPathIsTheStart()
    ensures Validated("") == Ok(None) && Location(Split("", '/'), 0) == [] && !StepsAbove(Split("", '/'))
  {
    var comps := Split("", '/');
    assert comps == [""] && comps[..0] == [] && comps[..1] == comps;
    assert Depth(comps[..0]) == 0 && Depth(comps[..1]) == 0;
    assert Normalized("") == "." && !Traverses(".");
  }

  /**
   * The validator decides exactly this: backslashes and absolute paths are refused; a relative path is
   * refused if and only if it steps above its start; otherwise the answer has only names, denotes the same
   * location, and is nothing exactly when that location is the start itself.
   */
  lemma ValidatorIsExact(path: string)
    ensures Validated(path) == Err(Backslash) <==> '\\' in path
    ensures Validated(path) == Err(Absolute) <==> '\\' !in path && IsAbsolute(path)
    ensures Validated(path) == Err(Traversal) <==> '\\' !in path && !IsAbsolute(path) && StepsAbove(Split(path, '/'))
    ensures Validated(path).Ok? ==> (Validated(path).value.None? <==> Location(Split(path, '/'), 0) == [])
    ensures Validated(path).Ok? && Validated(path).value.Some? ==>
              && Split(Validated(path).value.value, '/') == Location(Split(path, '/'), 0)
              && forall c :: c in Split(Validated(path).value.value, '/') ==> IsName(c)
  {
    if path == "" {
      EmptyPathIsTheStart();
    } else if '\\' !in path && path[0] != '/' {
      TraversalMeansAbove(path);
      NormalFormOfRelative(path);
      if !StepsAbove(Split(path, '/')) {
        AcceptedForm(path);
      }
    }
  }

  /** Validating a valid path again changes nothing. */
  lemma ValidationIsIdempotent(path: string)
    requires path != "" && Validated(path).Ok? && Validated(path).value.Some?
    ensures Validated(Validated(path).value.value) == Validated(path)
  {
    ValidatorIsExact(path);
    var r := Validated(path).value.value;
    var comps := Split(r, '/');
    NormalFormOfRelative(path);
    StackIsSlashFree(Split(path, '/'));
    NamesResolveToThemselves(comps);
    SplitOfJoin(comps, '/');
    NormalFormOfRelative(r);
    NoBackslashAppears(path);
  }

  lemma {:induction false} NamesResolveToThemselves(comps: seq<string>)
    requires forall c :: c in comps ==> IsName(c)
    ensures ResolveAll(comps, false) == comps && !StepsAbove(comps) && Depth(comps) == |comps|
  {
    if comps != [] {
      NamesResolveToThemselves(comps[..|comps| - 1]);
      OneNameMore(comps, comps[..|comps| - 1], comps[|comps| - 1]);
    }
  }

  lemma OneNameMore(comps: seq<string>, front: seq<string>, last: string)
    requires comps == front + [last] && IsName(last)
    requires ResolveAll(front, false) == front && !StepsAbove(front) && Depth(front) == |front|
    ensures ResolveAll(comps, false) == comps && !StepsAbove(comps) && Depth(comps) == |comps|
  {
    OneNameResolves(front, last);
    OneNameDeeper(front, last);
  }

  lemma OneNameResolves(front: seq<string>, last: string)
    requires IsName(last) && ResolveAll(front, false) == front
    ensures ResolveAll(front + [last], false) == front + [last]
  {
    assert (front + [last])[..|front|] == front;
  }

  lemma OneNameDeeper(front: seq<string>, last: string)
    requires IsName(last) && !StepsAbove(front) && Depth(front) == |front|
    ensures !StepsAbove(front + [last]) && Depth(front + [last]) == |front| + 1
  {
    var comps := front + [last];
    assert comps[..|front|] == front;
    forall n | 0 <= n <= |comps| ensures Depth(comps[..n]) >= 0 {
      if n < |comps| { assert comps[..n] == front[..n]; } else { assert comps[..n] == comps; }
    }
  }

  lemma NoBackslashAppears(path: string)
    requires path != "" && path[0] != '/' && '\\' !in path
    ensures '\\' !in Normalized(path)
  {
    NormalFormOfRelative(path);
    SplitKeepsChars(path, '/', '\\');
    StackKeepsChars(Split(path, '/'));
    JoinKeepsChars(ResolveAll(Split(path, '/'), false));
  }

  lemma {:induction false} StackKeepsChars(comps: seq<string>)
    requires forall c :: c in comps ==> '\\' !in c
    ensures forall c :: c in ResolveAll(comps, false) ==> '\\' !in c
  {
    if comps != [] {
      StackKeepsChars(comps[..|comps| - 1]);
      assert comps[|comps| - 1] in comps;
    }
  }

  lemma {:induction false} JoinKeepsChars(comps: seq<string>)
    requires forall c :: c in comps ==> '\\' !in c
    ensures '\\' !in Join(comps, '/')
  {
    if |comps| > 1 {
      JoinKeepsChars(comps[1..]);
      assert Join(comps, '/') == comps[0] + "/" + Join(comps[1..], '/');
    }
  }
}
