/** Order-preserving removal of repeats, `tuple(dict.fromkeys(items))`. */
module Collections {

  function Dedupe<T(==, !new)>(s: seq<T>): (r: seq<T>)
    ensures forall x :: x in r <==> x in s
    ensures forall i, j :: 0 <= i < j < |r| ==> r[i] != r[j]
  {
    if s == [] then []
    else
      var front := Dedupe(s[..|s| - 1]);
      var last := s[|s| - 1];
      if last in front then front else front + [last]
  }
}
