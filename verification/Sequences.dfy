/** Byte strings and the sequence facts the other modules share. */
module Sequences {

  newtype byte = x: int | 0 <= x < 256

  datatype Option<+T> = None | Some(value: T)

  /** The bytes of ASCII text. */
  function Ascii(s: string): seq<byte> {
    seq(|s|, i requires 0 <= i < |s| => (s[i] as int % 0x100) as byte)
  }

  /** The newest `n` elements of `s`, or all of `s` when there are fewer. */
  function Newest<T>(s: seq<T>, n: nat): (r: seq<T>)
    ensures |r| == if |s| <= n then |s| else n
  {
    if |s| <= n then s else s[|s| - n..]
  }

  /** A sliding window can be advanced from the window alone. */
  lemma NewestAdvances<T>(s: seq<T>, d: seq<T>, n: nat)
    ensures Newest(Newest(s, n) + d, n) == Newest(s + d, n)
  {
  }

  lemma ConcatAssociates<T>(a: seq<T>, b: seq<T>, c: seq<T>)
    ensures (a + b) + c == a + (b + c)
  {
  }

  function Flatten<T>(parts: seq<seq<T>>): seq<T> {
    if parts == [] then [] else parts[0] + Flatten(parts[1..])
  }

  lemma {:induction false} FlattenConcat<T>(a: seq<seq<T>>, b: seq<seq<T>>)
    ensures Flatten(a + b) == Flatten(a) + Flatten(b)
  {
    if a == [] {
      assert a + b == b;
    } else {
      assert (a + b)[1..] == a[1..] + b;
      FlattenConcat(a[1..], b);
    }
  }

  lemma FlattenSnoc<T>(a: seq<seq<T>>, x: seq<T>)
    ensures Flatten(a + [x]) == Flatten(a) + x
  {
    FlattenConcat(a, [x]);
    assert Flatten([x]) == x;
  }

  /** `needle` occupies `hay` from index `i`. */
  predicate OccursAt<T(==)>(hay: seq<T>, needle: seq<T>, i: int) {
    0 <= i && i + |needle| <= |hay| && hay[i..i + |needle|] == needle
  }

  ghost predicate Occurs<T>(hay: seq<T>, needle: seq<T>) {
    exists i :: OccursAt(hay, needle, i)
  }

  /** First occurrence of `needle` at or after `from`, or -1. */
  function IndexFrom<T(==)>(hay: seq<T>, needle: seq<T>, from: nat): (r: int)
    requires from <= |hay|
    ensures r == -1 || from <= r <= |hay| - |needle|
    decreases |hay| - from
  {
    if OccursAt(hay, needle, from) then from
    else if from == |hay| then -1
    else IndexFrom(hay, needle, from + 1)
  }

  function Index<T(==)>(hay: seq<T>, needle: seq<T>): (r: int)
    ensures r == -1 || 0 <= r <= |hay| - |needle|
  {
    IndexFrom(hay, needle, 0)
  }

  lemma {:induction false} IndexFromFinds<T>(hay: seq<T>, needle: seq<T>, from: nat)
    requires from <= |hay|
    ensures var r := IndexFrom(hay, needle, from);
            && (r != -1 ==> OccursAt(hay, needle, r))
            && (forall i :: from <= i && (i < r || r == -1) ==> !OccursAt(hay, needle, i))
    decreases |hay| - from
  {
    if !OccursAt(hay, needle, from) && from < |hay| {
      IndexFromFinds(hay, needle, from + 1);
    }
  }

  lemma IndexFinds<T>(hay: seq<T>, needle: seq<T>)
    ensures var r := Index(hay, needle);
            && (r != -1 ==> OccursAt(hay, needle, r))
            && (forall i :: i < r || r == -1 ==> !OccursAt(hay, needle, i))
  {
    IndexFromFinds(hay, needle, 0);
  }

  /** Last occurrence of `needle` at or before `upto`, or -1. */
  function LastIndexUpto<T(==)>(hay: seq<T>, needle: seq<T>, upto: int): (r: int)
    requires -1 <= upto
    ensures -1 <= r <= upto && (r == -1 || r + |needle| <= |hay|)
    decreases upto + 1
  {
    if upto == -1 then -1
    else if OccursAt(hay, needle, upto) then upto
    else LastIndexUpto(hay, needle, upto - 1)
  }

  function LastIndex<T(==)>(hay: seq<T>, needle: seq<T>): (r: int)
    ensures r == -1 || 0 <= r <= |hay| - |needle|
  {
    LastIndexUpto(hay, needle, |hay|)
  }

  lemma {:induction false} LastIndexUptoFinds<T>(hay: seq<T>, needle: seq<T>, upto: int)
    requires -1 <= upto
    ensures var r := LastIndexUpto(hay, needle, upto);
            && (r != -1 ==> OccursAt(hay, needle, r))
            && (forall i :: r < i <= upto ==> !OccursAt(hay, needle, i))
    decreases upto + 1
  {
    if upto >= 0 && !OccursAt(hay, needle, upto) {
      LastIndexUptoFinds(hay, needle, upto - 1);
    }
  }

  lemma LastIndexFinds<T>(hay: seq<T>, needle: seq<T>)
    ensures var r := LastIndex(hay, needle);
            && (r != -1 ==> OccursAt(hay, needle, r))
            && (forall i :: r < i ==> !OccursAt(hay, needle, i))
  {
    LastIndexUptoFinds(hay, needle, |hay|);
  }

  lemma OccursAtElements<T>(hay: seq<T>, needle: seq<T>, i: int)
    requires 0 <= i && i + |needle| <= |hay|
    ensures OccursAt(hay, needle, i) <==> forall k :: 0 <= k < |needle| ==> hay[i + k] == needle[k]
  {
    if forall k :: 0 <= k < |needle| ==> hay[i + k] == needle[k] {
      assert hay[i..i + |needle|] == needle;
    }
    if OccursAt(hay, needle, i) {
      forall k | 0 <= k < |needle| ensures hay[i + k] == needle[k] {
        assert hay[i..i + |needle|][k] == needle[k];
      }
    }
  }

  /** Occurrence is unchanged by text added before. */
  lemma OccursAtShift<T>(before: seq<T>, hay: seq<T>, needle: seq<T>, i: int)
    requires 0 <= i
    ensures OccursAt(before + hay, needle, |before| + i) <==> OccursAt(hay, needle, i)
  {
    if i + |needle| <= |hay| {
      assert (before + hay)[|before| + i..|before| + i + |needle|] == hay[i..i + |needle|];
    }
  }
}
