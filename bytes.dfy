/** Byte strings as the XBee code handles them (Python `bytes`/`str` values,
    every element 0..255), with the few operations on them that the library
    uses: summing, Python slicing, ASCII lower-casing, bit tests and the
    search for a 0x00 terminator. */
module Bytes {

  type byte = b: int | 0 <= b < 256

  /** The sum of all bytes, as the checksum loops accumulate it. */
  function Sum(s: seq<byte>): nat
  {
    if |s| == 0 then 0 else Sum(s[..|s| - 1]) + s[|s| - 1]
  }

  lemma {:induction false} SumAppend(a: seq<byte>, b: seq<byte>)
    ensures Sum(a + b) == Sum(a) + Sum(b)
  {
    if |b| == 0 {
      assert a + b == a;
    } else {
      assert (a + b)[..|a + b| - 1] == a + b[..|b| - 1];
      SumAppend(a, b[..|b| - 1]);
    }
  }

  /** The sum does not depend on the order of the bytes. */
  lemma {:induction false} SumPermutation(a: seq<byte>, b: seq<byte>)
    requires multiset(a) == multiset(b)
    ensures Sum(a) == Sum(b)
    decreases |a|
  {
    if |a| == 0 {
      assert |b| == |multiset(b)| == 0;
    } else {
      var x := a[|a| - 1];
      var a' := a[..|a| - 1];
      assert a == a' + [x];
      assert x in multiset(b);
      var i :| 0 <= i < |b| && b[i] == x;
      var b' := b[..i] + b[i + 1..];
      assert b == b[..i] + [x] + b[i + 1..];
      assert multiset(b) == multiset(b[..i]) + multiset{x} + multiset(b[i + 1..]);
      assert multiset(a) == multiset(a') + multiset{x};
      assert multiset(b') == multiset(b[..i]) + multiset(b[i + 1..]);
      assert multiset(a') == multiset(a) - multiset{x};
      assert multiset(b') == multiset(b) - multiset{x};
      assert multiset(b') == multiset(a');
      SumPermutation(a', b');
      SumAppend(a', [x]);
      SumAppend(b[..i], [x]);
      SumAppend(b[..i] + [x], b[i + 1..]);
      SumAppend(b[..i], b[i + 1..]);
      assert Sum([x]) == x by {
        assert [x][..0] == [];
      }
    }
  }

  /** Python's `s[start:stop]` for a non-negative start: a negative stop counts
      from the end, and both ends are clamped to the string. */
  function Slice(s: seq<byte>, start: nat, stop: int): (r: seq<byte>)
    ensures start <= stop <= |s| ==> r == s[start..stop]
    ensures |s| <= stop && start <= |s| ==> r == s[start..]
    ensures start <= |s| ==> |r| <= |s| - start && r == s[start..start + |r|]
  {
    var e := if stop < 0 then |s| + stop else stop;
    var e' := if e < 0 then 0 else if e > |s| then |s| else e;
    if start >= e' then [] else s[start..e']
  }

  /** `bytes.lower()`: ASCII upper-case letters become lower-case, every other
      byte is kept. */
  function Lower(s: seq<byte>): (r: seq<byte>)
    ensures |r| == |s|
    ensures forall i :: 0 <= i < |s| ==> r[i] == if 65 <= s[i] <= 90 then s[i] + 32 else s[i]
  {
    seq(|s|, i requires 0 <= i < |s| => if 65 <= s[i] <= 90 then s[i] + 32 else s[i])
  }

  /** The bytes of an ASCII literal such as "MY". */
  function Ascii(s: string): (r: seq<byte>)
    requires forall i :: 0 <= i < |s| ==> s[i] as int < 256
    ensures |r| == |s| && forall i :: 0 <= i < |s| ==> r[i] == s[i] as int
  {
    seq(|s|, i requires 0 <= i < |s| => s[i] as int)
  }

  /** Two bytes read most significant first, as an unsigned number. */
  function BigEndian(hi: byte, lo: byte): nat
  {
    256 * (hi as int) + (lo as int)
  }

  /** Two bytes read most significant first, as `(hi << 8) | lo`. */
  function Word(hi: byte, lo: byte): bv16
  {
    ((hi as bv16) << 8) | (lo as bv16)
  }

  /** Dropping a then b elements drops a + b. */
  lemma SliceSlice<T>(s: seq<T>, a: nat, b: nat)
    requires a + b <= |s|
    ensures s[a..][b..] == s[a + b..]
  {
  }

  /** Python's `mask & (1 << k) != 0` on a value below 2^16: false from bit 16 on. */
  predicate Bit(mask: bv16, k: nat)
  {
    k < 16 && mask & (1 << k) != 0
  }

  /** The position of the first 0x00 at or after `from`, if there is one. */
  function FirstZero(s: seq<byte>, from: nat): (r: Option<nat>)
    ensures r.Some? ==> from <= r.value < |s| && s[r.value] == 0
    ensures r.Some? ==> forall k :: from <= k < r.value ==> s[k] != 0
    ensures r.None? ==> forall k :: from <= k < |s| ==> s[k] != 0
    decreases |s| - from
  {
    if from >= |s| then None
    else if s[from] == 0 then Some(from)
    else FirstZero(s, from + 1)
  }

  datatype Option<+T> = None | Some(value: T)
}
