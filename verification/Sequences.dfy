/** Small functions on numbers and sequences that several models share. */
module Sequences {

  function Min(a: nat, b: nat): nat {
    if a < b then a else b
  }

  /** The pieces between separators; there is always one more piece than there are separators. */
  function Split<T(==)>(s: seq<T>, separators: set<T>): (pieces: seq<seq<T>>)
    ensures |pieces| > 0
  {
    if s == [] then [[]]
    else
      var rest := Split(s[1..], separators);
      if s[0] in separators then [[]] + rest else [[s[0]] + rest[0]] + rest[1..]
  }

  /** The pieces that are not empty, in order. */
  function NonEmpty<T(==)>(pieces: seq<seq<T>>): (r: seq<seq<T>>)
    ensures forall piece :: piece in r ==> piece != []
  {
    if pieces == [] then []
    else if pieces[0] == [] then NonEmpty(pieces[1..])
    else [pieces[0]] + NonEmpty(pieces[1..])
  }
}
