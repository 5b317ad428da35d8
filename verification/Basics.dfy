/** What several components share. */
module Basics {

  type byte = b: int | 0 <= b < 256

  const UINT32: nat := 0x1_0000_0000

  /** The initial flow-control window of HTTP/2. */
  const DEFAULT_WINDOW: nat := 65535

  datatype Option<+T> = None | Some(value: T)

  function Min(a: int, b: int): int {
    if a <= b then a else b
  }

  /** Coroutine ids. */
  type Cid = int

  /** What printing a string with a precision writes: up to its first terminator. */
  function UpTo<T(==)>(s: seq<T>, stop: T): (r: seq<T>)
    ensures r <= s && stop !in r && (|r| < |s| ==> s[|r|] == stop)
    ensures |r| == |s| <==> stop !in s
  {
    if s == [] || s[0] == stop then []
    else
      assert s == [s[0]] + s[1..];
      [s[0]] + UpTo(s[1..], stop)
  }

  /** What printing into a buffer keeps. */
  function Truncated<T>(s: seq<T>, size: nat): (r: seq<T>)
    requires size > 0
    ensures r <= s && |r| == Min(|s|, size - 1)
  {
    if |s| >= size then s[..size - 1] else s
  }

  /** A hexadecimal digit; `a` is the letter that stands for ten. */
  function HexDigit(d: int, a: byte): byte
    requires 0 <= d < 16 && a <= 97
  {
    if d < 10 then 48 + d else a + d - 10
  }

  /** Hexadecimal digits of either case. */
  predicate IsHex(b: byte) {
    48 <= b <= 57 || 65 <= b <= 70 || 97 <= b <= 102
  }

  function UnHex(b: byte): (d: int)
    requires IsHex(b)
    ensures 0 <= d < 16 && (b == HexDigit(d, 97) || b == HexDigit(d, 65))
  {
    if b <= 57 then b - 48 else if b <= 70 then b - 55 else b - 87
  }

  /** Pieces of a byte string put together again. */
  function Flatten(segs: seq<seq<byte>>): seq<byte> {
    if segs == [] then [] else segs[0] + Flatten(segs[1..])
  }

  lemma {:induction false} FlattenSnoc(segs: seq<seq<byte>>, last: seq<byte>)
    ensures Flatten(segs + [last]) == Flatten(segs) + last
  {
    if segs == [] {
      assert [] + [last] == [last] && [last][1..] == [];
    } else {
      assert (segs + [last])[0] == segs[0] && (segs + [last])[1..] == segs[1..] + [last];
      FlattenSnoc(segs[1..], last);
    }
  }
}
