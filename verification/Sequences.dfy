/** Concatenation: associativity, and pieces put together. */
module Sequences {

  lemma SeqAssoc<A>(r: seq<A>, s: seq<A>, t: seq<A>)
    ensures r + (s + t) == (r + s) + t
  {}

  lemma ThreeSlices<A>(s: seq<A>, i: nat, j: nat, k: nat, l: nat)
    requires i <= j <= k <= l <= |s|
    ensures s[i..l] == s[i..j] + s[j..k] + s[k..l]
  {}

  function Concat<A>(pieces: seq<seq<A>>): seq<A> {
    if pieces == [] then [] else pieces[0] + Concat(pieces[1..])
  }

  lemma ConcatNil<A>()
    ensures Concat<A>([]) == []
  {}

  lemma ConcatOne<A>(piece: seq<A>)
    ensures Concat([piece]) == piece
  {
    assert Concat([piece]) == piece + Concat([]);
  }

  lemma ConcatCons<A>(piece: seq<A>, pieces: seq<seq<A>>)
    ensures Concat([piece] + pieces) == piece + Concat(pieces)
  {
    assert ([piece] + pieces)[1..] == pieces;
  }

  lemma {:induction false} ConcatSnoc<A>(pieces: seq<seq<A>>, piece: seq<A>)
    ensures Concat(pieces + [piece]) == Concat(pieces) + piece
    decreases |pieces|
  {
    if pieces == [] {
      assert pieces + [piece] == [piece];
      ConcatOne(piece);
    } else {
      assert (pieces + [piece])[1..] == pieces[1..] + [piece];
      ConcatSnoc(pieces[1..], piece);
    }
  }

  lemma ConcatNext<A>(pieces: seq<seq<A>>, k: nat)
    requires k < |pieces|
    ensures Concat(pieces[..k + 1]) == Concat(pieces[..k]) + pieces[k]
  {
    assert pieces[..k + 1] == pieces[..k] + [pieces[k]];
    ConcatSnoc(pieces[..k], pieces[k]);
  }
}
