/** Bytes, big-endian 16-bit lengths, and what the project needs of sequences. */
module Bytes {
  type byte = b: int | 0 <= b < 256
  type Packet = seq<byte>
  type Bytes32 = s: seq<byte> | |s| == 32 witness seq(32, _ => 0)

  datatype Option<+T> = None | Some(value: T)

  /** `(n as u16).to_be_bytes()`: the length is truncated to 16 bits. */
  function Be16(n: nat): (r: seq<byte>)
    ensures |r| == 2
  {
    [n / 256 % 256, n % 256]
  }

  function FromBe16(hi: byte, lo: byte): nat { hi * 256 + lo }

  lemma Be16RoundTrip(n: nat)
    ensures FromBe16(Be16(n)[0], Be16(n)[1]) == n % 65536
  {
    var q, r := n / 65536, n % 65536;
    assert n / 256 == 256 * q + r / 256;
    assert n % 256 == r % 256;
  }

  function HighNibble(b: byte): nat { b / 16 }

  function Flatten<T>(ss: seq<seq<T>>): seq<T> {
    if ss == [] then [] else ss[0] + Flatten(ss[1..])
  }

  lemma ConcatAssoc<T>(a: seq<T>, b: seq<T>, c: seq<T>)
    ensures a + b + c == a + (b + c)
  {
  }

  /** `a` is what is left of `b` after deleting some elements. */
  predicate Subsequence<T(==)>(a: seq<T>, b: seq<T>)
    decreases |b|
  {
    || a == []
    || (b != [] && (Subsequence(a, b[1..]) || (a[0] == b[0] && Subsequence(a[1..], b[1..]))))
  }

  lemma {:induction false} SubsequenceConcat<T>(a: seq<T>, b: seq<T>, a': seq<T>, b': seq<T>)
    requires Subsequence(a, b) && Subsequence(a', b')
    ensures Subsequence(a + a', b + b')
    decreases |b|
  {
    if b == [] {
      assert a + a' == a' && b + b' == b';
    } else {
      assert (b + b')[1..] == b[1..] + b';
      if Subsequence(a, b[1..]) {
        SubsequenceConcat(a, b[1..], a', b');
      } else {
        assert (a + a')[1..] == a[1..] + a';
        SubsequenceConcat(a[1..], b[1..], a', b');
      }
    }
  }

  lemma {:induction false} SubsequenceRefl<T>(a: seq<T>)
    ensures Subsequence(a, a)
  {
    if a == [] {
    } else {
      SubsequenceRefl(a[1..]);
    }
  }
}
