/** The HTTP client's search for the end of a response header while it arrives in pieces.
    Only the last four old bytes are searched again after each piece. */
module HeaderSearch {
  import opened Basics
  import opened Search

  const END: seq<byte> := [13, 10, 13, 10]

  /** Waiting with a buffer and an offset, or stopped after some number of pieces. */
  datatype Status =
    | Waiting(buffer: seq<byte>, offset: nat)
    | Complete(pieces: nat, bytes: seq<byte>)
    | TooLarge(pieces: nat)

  function Resume(n: nat): nat {
    if n > 4 then n - 4 else 0
  }

  /** A line break and an empty line. */
  predicate EndAt(s: seq<byte>, i: nat) {
    i + 4 <= |s| && s[i..i + 4] == [13, 10, 13, 10]
  }

  predicate HasEnd(s: seq<byte>) {
    exists i: nat | i < |s| :: EndAt(s, i)
  }

  lemma EndFound(s: seq<byte>)
    ensures HasEnd(s) <==> Find(s, END, 0) != -1
  {
    hide Find;
    var n := Find(s, END, 0);
    if n != -1 {
      assert MatchAt(s, END, n) && EndAt(s, n);
    }
    if HasEnd(s) {
      var i: nat :| i < |s| && EndAt(s, i);
      assert MatchAt(s, END, i);
    }
  }

  /** One piece, searched from the remembered offset. */
  function Step(size: nat, buffer: seq<byte>, offset: nat, pieces: nat, data: seq<byte>): Status
    requires offset <= |buffer|
  {
    var grown := buffer + data;
    if Find(grown[offset..], END, 0) != -1 then Complete(pieces + 1, grown)
    else if |grown| == size then TooLarge(pieces + 1)
    else Waiting(grown, Resume(|grown|))
  }

  function Run(size: nat, buffer: seq<byte>, offset: nat, pieces: nat, input: seq<seq<byte>>): Status
    requires offset <= |buffer|
    decreases |input|
  {
    if input == [] then Waiting(buffer, offset)
    else
      match Step(size, buffer, offset, pieces, input[0])
      case Waiting(b, o) => Run(size, b, o, pieces + 1, input[1..])
      case stopped => stopped
  }

  // ---------------------------------------------------------------------------

  lemma MatchInSuffix(s: seq<byte>, offset: nat, i: nat)
    requires offset <= i && offset <= |s|
    ensures MatchAt(s[offset..], END, i - offset) <==> MatchAt(s, END, i)
  {
    if i + |END| <= |s| {
      assert s[offset..][i - offset..i - offset + |END|] == s[i..i + |END|];
    }
  }

  /** Without an end in the old bytes, the end of the grown buffer cannot start before the
      offset, so the short search finds what a search of everything finds. */
  lemma ShortSearch(buffer: seq<byte>, data: seq<byte>)
    requires !HasEnd(buffer)
    ensures var o := Resume(|buffer|);
      var found := Find((buffer + data)[o..], END, 0);
      Find(buffer + data, END, 0) == if found == -1 then -1 else o + found
  {
    hide MatchAt, HasEnd;
    EndFound(buffer);
    var s := buffer + data;
    var o := Resume(|buffer|);
    var whole := Find(s, END, 0);
    var found := Find(s[o..], END, 0);
    assert s[..|buffer|] == buffer;
    FindInPrefix(s, END, |buffer|);
    assert whole == -1 || whole + 4 > |buffer|;
    if found != -1 {
      MatchInSuffix(s, o, o + found);
      assert whole != -1;
    }
    if whole != -1 {
      assert o <= whole;
      MatchInSuffix(s, o, whole);
      assert found != -1 && found <= whole - o;
      assert whole <= o + found;
    }
  }

  lemma {:induction false} FlattenPrefix(input: seq<seq<byte>>, n: nat, m: nat)
    requires n <= m <= |input|
    ensures |Flatten(input[..n])| <= |Flatten(input[..m])|
    ensures Flatten(input[..m])[..|Flatten(input[..n])|] == Flatten(input[..n])
    decreases m - n
  {
    if n < m {
      FlattenPrefix(input, n, m - 1);
      FlattenTo(input, m - 1);
    }
  }

  lemma FlattenTo(input: seq<seq<byte>>, n: nat)
    requires n < |input|
    ensures Flatten(input[..n + 1]) == Flatten(input[..n]) + input[n]
  {
    assert input[..n + 1] == input[..n] + [input[n]];
    FlattenSnoc(input[..n], input[n]);
  }

  /** What has been received after `n` pieces, none of which stopped the search. */
  predicate StillWaiting(size: nat, input: seq<seq<byte>>, n: nat) {
    n <= |input| && !HasEnd(Flatten(input[..n])) && |Flatten(input[..n])| < size
  }

  /** The verdict on a whole input, by searching everything received after every piece. */
  ghost predicate Verdict(size: nat, input: seq<seq<byte>>, st: Status) {
    match st
    case Waiting(buffer, offset) =>
      buffer == Flatten(input) && offset == Resume(|buffer|) && StillWaiting(size, input, |input|)
    case Complete(n, bytes) =>
      1 <= n <= |input| && StillWaiting(size, input, n - 1) && bytes == Flatten(input[..n]) && HasEnd(bytes)
    case TooLarge(n) =>
      && 1 <= n <= |input| && StillWaiting(size, input, n - 1)
      && !HasEnd(Flatten(input[..n])) && |Flatten(input[..n])| == size
  }

  /** While the search is waiting, a piece is no longer than the room left in the buffer. */
  predicate PiecesFit(size: nat, input: seq<seq<byte>>) {
    forall n | 0 <= n < |input| && StillWaiting(size, input, n) :: |Flatten(input[..n])| + |input[n]| <= size
  }

  lemma {:induction false} RunVerdict(size: nat, input: seq<seq<byte>>, n: nat)
    requires n <= |input| && StillWaiting(size, input, n) && PiecesFit(size, input)
    ensures var b := Flatten(input[..n]);
      Verdict(size, input, Run(size, b, Resume(|b|), n, input[n..]))
    decreases |input| - n
  {
    hide Flatten, Find, HasEnd;
    var b := Flatten(input[..n]);
    if n == |input| {
      assert input[..n] == input && input[n..] == [];
    } else {
      assert input[n..][0] == input[n] && input[n..][1..] == input[n + 1..];
      FlattenTo(input, n);
      ShortSearch(b, input[n]);
      EndFound(b + input[n]);
      assert |Flatten(input[..n + 1])| <= size;
      if StillWaiting(size, input, n + 1) {
        RunVerdict(size, input, n + 1);
      }
    }
  }

  /** A buffer of `size` bytes receives pieces that fit the room left.  The search stops after
      the first piece that completes the header, with all bytes received so far, or with an
      error after the piece that fills the buffer without one; otherwise it waits. */
  lemma Detection(size: nat, input: seq<seq<byte>>)
    requires size > 0 && PiecesFit(size, input)
    ensures Verdict(size, input, Run(size, [], 0, 0, input))
  {
    assert Flatten(input[..0]) == [] && !HasEnd([]);
    assert input[0..] == input;
    RunVerdict(size, input, 0);
  }

  lemma HasEndGrows(s: seq<byte>, k: nat)
    requires k <= |s| && HasEnd(s[..k])
    ensures HasEnd(s)
  {
    var i: nat :| i < k && EndAt(s[..k], i);
    assert s[i..i + 4] == s[..k][i..i + 4] && EndAt(s, i);
  }

  /** The verdict is unique, so the result does not depend on how it was searched for. */
  lemma VerdictUnique(size: nat, input: seq<seq<byte>>, a: Status, b: Status)
    requires Verdict(size, input, a) && Verdict(size, input, b)
    ensures a == b
  {
    hide Flatten, HasEnd;
    VerdictOrder(size, input, a, b);
    VerdictOrder(size, input, b, a);
  }

  function Pieces(st: Status, all: nat): nat {
    if st.Waiting? then all + 1 else st.pieces
  }

  /** A stop rules out waiting at or beyond that point. */
  lemma VerdictOrder(size: nat, input: seq<seq<byte>>, a: Status, b: Status)
    requires Verdict(size, input, a) && Verdict(size, input, b)
    ensures Pieces(a, |input|) >= Pieces(b, |input|)
  {
    hide Flatten;
    var n := Pieces(a, |input|);
    var m := Pieces(b, |input|) - 1;
    if n <= m {
      assert input[..|input|] == input;
      assert StillWaiting(size, input, m);
      FlattenPrefix(input, n, m);
      if a.Complete? {
        HasEndGrows(Flatten(input[..m]), |Flatten(input[..n])|);
      }
    }
  }

  // ---------------------------------------------------------------------------

  class Receiver {
    var buffer: seq<byte>
    var offset: nat
    var pieces: nat
    const size: nat

    constructor (size: nat)
      ensures this.size == size && buffer == [] && offset == 0 && pieces == 0
    {
      this.size, buffer, offset, pieces := size, [], 0, 0;
    }

    /** The header part of one turn of the receive loop. */
    method OnRecv(data: seq<byte>) returns (st: Status)
      requires offset <= |buffer|
      modifies this
      ensures st == Step(size, old(buffer), old(offset), old(pieces), data)
      ensures pieces == old(pieces) + 1
      ensures match st
        case Waiting(b, o) => buffer == b && offset == o && offset <= |buffer|
        case Complete(_, bytes) => buffer == [] && offset == 0
        case TooLarge(_) => buffer == old(buffer) + data && offset == old(offset)
    {
      buffer := buffer + data;
      pieces := pieces + 1;
      var found := Strnpos(buffer[offset..], END);
      if found < 0 {
        if |buffer| == size {
          return TooLarge(pieces);
        }
        offset := if |buffer| > 4 then |buffer| - 4 else 0;
        return Waiting(buffer, offset);
      }
      st := Complete(pieces, buffer);
      buffer, offset := [], 0;
    }

    /** The receive loop up to the end of the header. */
    method ReceiveHeader(input: seq<seq<byte>>) returns (st: Status)
      requires buffer == [] && offset == 0 && pieces == 0 && size > 0 && PiecesFit(size, input)
      modifies this
      ensures Verdict(size, input, st)
    {
      Detection(size, input);
      hide Step, Flatten, Verdict;
      st := Waiting(buffer, offset);
      var i := 0;
      assert input[0..] == input;
      while i < |input|
        invariant 0 <= i <= |input| && i == pieces && offset <= |buffer| && st == Waiting(buffer, offset)
        invariant Run(size, [], 0, 0, input) == Run(size, buffer, offset, pieces, input[i..])
      {
        assert input[i..][0] == input[i] && input[i..][1..] == input[i + 1..];
        st := OnRecv(input[i]);
        if !st.Waiting? {
          return;
        }
        i := i + 1;
      }
    }
  }
}
