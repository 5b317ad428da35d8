/** First-occurrence search, shared by the end-of-packet splitter and the readers. */
module Search {

  predicate MatchAt<T(==)>(hay: seq<T>, needle: seq<T>, i: nat) {
    i + |needle| <= |hay| && hay[i..i + |needle|] == needle
  }

  /** The least position at or after `from` where the needle occurs, or -1. */
  function Find<T(==)>(hay: seq<T>, needle: seq<T>, from: nat): (r: int)
    ensures r == -1 || (from <= r && MatchAt(hay, needle, r))
    ensures r == -1 ==> forall i: nat | from <= i :: !MatchAt(hay, needle, i)
    ensures r != -1 ==> forall i: nat | from <= i < r :: !MatchAt(hay, needle, i)
    decreases |hay| - from
  {
    if from + |needle| > |hay| then -1
    else if MatchAt(hay, needle, from) then from
    else Find(hay, needle, from + 1)
  }

  lemma MatchInPrefix<T>(hay: seq<T>, needle: seq<T>, k: nat, i: nat)
    requires k <= |hay|
    ensures MatchAt(hay[..k], needle, i) <==> MatchAt(hay, needle, i) && i + |needle| <= k
  {
    if i + |needle| <= k {
      assert hay[..k][i..i + |needle|] == hay[i..i + |needle|];
    }
  }

  /** Searching a prefix finds the same first occurrence exactly when all of it lies inside. */
  lemma FindInPrefix<T>(hay: seq<T>, needle: seq<T>, k: nat)
    requires k <= |hay|
    ensures var r := Find(hay, needle, 0);
            Find(hay[..k], needle, 0) == if r != -1 && r + |needle| <= k then r else -1
  {
    var r := Find(hay, needle, 0);
    var q := Find(hay[..k], needle, 0);
    if q != -1 {
      MatchInPrefix(hay, needle, k, q);
    }
    if r != -1 {
      MatchInPrefix(hay, needle, k, r);
      if q != -1 && q < r {
        assert false;
      }
    }
  }

  /** The search loop itself: first byte, then the whole needle, one position at a time. */
  method Strnpos<T(==)>(hay: seq<T>, needle: seq<T>) returns (r: int)
    requires needle != []
    ensures r == Find(hay, needle, 0)
  {
    if |needle| <= |hay| {
      var i := 0;
      while i < |hay| - |needle| + 1
        invariant 0 <= i <= |hay| - |needle| + 1
        invariant Find(hay, needle, 0) == Find(hay, needle, i)
      {
        if hay[i] == needle[0] && hay[i..i + |needle|] == needle {
          return i;
        }
        i := i + 1;
      }
    }
    return -1;
  }
}
