/**
 The unsigned 8-bit values everything in the firmware is made of.

 A byte is an integer below 256.  Arithmetic on bytes is written out with its wrap-around where the
 firmware's wraps; bitwise `and` is a recursive function on integers, and so are the single bits of a
 mask in the module that needs them.

 The rest are facts about lists and sets of bytes that several modules share: removing one element of
 a list, permutations of the numbers below a bound, lists without repetition, and the pigeonhole
 argument that a pool which is not full has a free slot.
 */
module Bytes {
  type byte = x: int | 0 <= x < 256

  /** `U7`, that is `byteAnd(b, 0x7f)`. */
  function Low7(b: byte): byte {
    b % 128
  }

  /** `byteAnd(b, 0x80) != 0`. */
  predicate HighBit(b: byte) {
    b >= 128
  }

  /** `byteOr(b, 0x80)`. */
  function SetHighBit(b: byte): byte {
    if b >= 128 then b else b + 128
  }

  /** `a & b`. */
  function And(a: nat, b: nat): (r: nat)
    ensures r <= a && r <= b
    decreases a
  {
    if a == 0 then 0 else (if a % 2 == 1 && b % 2 == 1 then 1 else 0) + 2 * And(a / 2, b / 2)
  }

  /** No value occurs twice. */
  ghost predicate Distinct<T>(s: seq<T>) {
    forall i, j :: 0 <= i < j < |s| ==> s[i] != s[j]
  }

  function Without<T>(s: seq<T>, k: nat): (r: seq<T>)
    requires k < |s|
    ensures Removes(r, s, k)
  {
    seq(|s| - 1, i requires 0 <= i < |s| - 1 => if i < k then s[i] else s[i + 1])
  }

  /** `r` is `s` without its k-th element. */
  ghost predicate Removes<T>(r: seq<T>, s: seq<T>, k: nat) {
    && k < |s|
    && |r| == |s| - 1
    && (forall i {:trigger r[i]} :: 0 <= i < k ==> r[i] == s[i])
    && (forall i :: k <= i < |r| ==> r[i] == s[i + 1])
  }

  lemma RemovesUnique<T>(r: seq<T>, s: seq<T>, k: nat)
    requires Removes(r, s, k)
    ensures r == Without(s, k)
  {
  }

  lemma RemovesFromDistinct<T>(r: seq<T>, s: seq<T>, k: nat)
    requires Removes(r, s, k) && Distinct(s)
    ensures Distinct(r)
    ensures forall x :: x in r <==> x in s && x != s[k]
  {
    forall x | x in s && x != s[k] ensures x in r {
      var i :| 0 <= i < |s| && s[i] == x;
      assert r[if i < k then i else i - 1] == x;
    }
  }

  /** When a byte last came, counting from 1; 0 when it never did. */
  function LastTime(s: seq<byte>, x: byte): (t: nat)
    ensures t <= |s|
  {
    if s == [] then 0 else if s[|s| - 1] == x then |s| else LastTime(s[..|s| - 1], x)
  }

  /** `s` holds each of 0..n-1 once, in some order. */
  ghost predicate IsPermutation(s: seq<byte>) {
    Distinct(s) && forall i :: 0 <= i < |s| ==> s[i] < |s|
  }

  function ElementsOf(s: seq<byte>): (r: set<byte>) {
    set i | 0 <= i < |s| :: s[i]
  }

  lemma {:induction false} DistinctCount(s: seq<byte>)
    requires Distinct(s)
    ensures |ElementsOf(s)| == |s|
  {
    if s != [] {
      var rest := s[1..];
      DistinctCount(rest);
      assert s == [s[0]] + rest;
      assert ElementsOf(s) == ElementsOf(rest) + {s[0]};
    }
  }

  /** The values lo..hi-1. */
  function Interval(lo: nat, hi: nat): (r: set<byte>)
    requires lo <= hi <= 256
    ensures forall b: byte :: b in r <==> lo <= b < hi
    ensures |r| == hi - lo
    decreases hi - lo
  {
    if lo == hi then {} else Interval(lo + 1, hi) + {lo}
  }

  lemma SubsetCount<T>(a: set<T>, b: set<T>)
    requires a <= b
    ensures |a| <= |b|
    ensures |a| == |b| ==> a == b
  {
    assert b == a + (b - a);
  }

  /** Distinct values drawn from an interval: no more of them than the interval holds, and all of it when as many. */
  lemma Pigeonhole(s: seq<byte>, lo: nat, hi: nat)
    requires lo <= hi <= 256 && Distinct(s)
    requires forall i :: 0 <= i < |s| ==> lo <= s[i] < hi
    ensures |s| <= hi - lo
    ensures |s| == hi - lo ==> forall b: byte :: lo <= b < hi ==> b in s
    ensures |s| < hi - lo ==> exists b: byte :: lo <= b < hi && b !in s
  {
    var all := Interval(lo, hi);
    DistinctCount(s);
    SubsetCount(ElementsOf(s), all);
    if |s| == hi - lo {
      forall b: byte | lo <= b < hi ensures b in s {
        assert b in all;
      }
    } else if forall b: byte :: lo <= b < hi ==> b in s {
      forall b | b in all ensures b in ElementsOf(s) {
        assert b in s;
      }
      SubsetCount(all, ElementsOf(s));
      assert false;
    }
  }
}
