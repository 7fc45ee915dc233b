/** Reading a table of sequence numbers in ascending order. */
module SequenceOrder {
  lemma Pick<T>(ks: set<T>) returns (x: T)
    requires ks != {}
    ensures x in ks
  {
    x :| x in ks;
  }

  predicate IsSmallest(k: int, ks: set<int>) {
    k in ks && forall x :: x in ks ==> k <= x
  }

  lemma {:induction false} SmallestExists(ks: set<int>)
    requires ks != {}
    ensures exists k :: IsSmallest(k, ks)
  {
    var x := Pick(ks);
    if ks == {x} {
      assert IsSmallest(x, ks);
    } else {
      SmallestExists(ks - {x});
      var y :| IsSmallest(y, ks - {x});
      assert forall z :: z in ks ==> z == x || z in ks - {x};
      assert IsSmallest(if x < y then x else y, ks);
    }
  }

  function Smallest(ks: set<int>): (k: int)
    requires ks != {}
    ensures IsSmallest(k, ks)
  {
    SmallestExists(ks);
    var k :| IsSmallest(k, ks);
    k
  }

  // ORDER BY evidence_sequence LIMIT limit
  function FirstSequences(ks: set<int>, limit: nat): (order: seq<int>)
    ensures forall k :: k in order ==> k in ks
    ensures |order| == if |ks| < limit then |ks| else limit
    ensures ks != {} && limit > 0 ==> order != []
    decreases limit
  {
    if ks == {} || limit == 0 then []
    else
      var k := Smallest(ks);
      [k] + FirstSequences(ks - {k}, limit - 1)
  }

  // The numbers lo..hi in order.
  function Upto(lo: int, hi: int): (order: seq<int>)
    requires lo <= hi + 1
    ensures |order| == hi + 1 - lo
    ensures forall i :: 0 <= i < |order| ==> order[i] == lo + i
  {
    seq(hi + 1 - lo, i requires 0 <= i < hi + 1 - lo => lo + i)
  }

  ghost predicate IsInterval(ks: set<int>, lo: int, hi: int) {
    forall k :: k in ks <==> lo <= k <= hi
  }

  lemma UptoFromLeft(lo: int, hi: int)
    requires lo <= hi + 1
    ensures lo <= hi ==> Upto(lo, hi) == [lo] + Upto(lo + 1, hi)
  {
  }

  // The lowest `limit` numbers of an interval are its first ones.
  lemma {:induction false} FirstOfInterval(ks: set<int>, limit: nat, lo: int, hi: int)
    requires IsInterval(ks, lo, hi) && lo <= hi + 1
    ensures FirstSequences(ks, limit) == Upto(lo, if lo + limit - 1 <= hi then lo + limit - 1 else hi)
  {
    if lo > hi {
      if ks != {} {
        var k := Pick(ks);
      }
    } else if limit > 0 {
      assert lo in ks;
      assert Smallest(ks) == lo;
      hide IsSmallest, Smallest;
      FirstOfInterval(ks - {lo}, limit - 1, lo + 1, hi);
      UptoFromLeft(lo, if lo + limit - 1 <= hi then lo + limit - 1 else hi);
    }
  }
}
