/** Little-endian words, as the kernel lays them out in 512-byte disk blocks. */
module Bytes {

  type byte = x: int | 0 <= x < 256

  function Pow256(k: nat): (r: nat)
    ensures r > 0
  {
    if k == 0 then 1 else 256 * Pow256(k - 1)
  }

  /** The `k` low bytes of `n`, least significant first. */
  function ToBytes(n: nat, k: nat): (s: seq<byte>)
    ensures |s| == k
    decreases k
  {
    if k == 0 then [] else [n % 256] + ToBytes(n / 256, k - 1)
  }

  function FromBytes(s: seq<byte>): nat {
    if s == [] then 0 else s[0] + 256 * FromBytes(s[1..])
  }

  lemma {:induction false} FromTo(n: nat, k: nat)
    requires n < Pow256(k)
    ensures FromBytes(ToBytes(n, k)) == n
    decreases k
  {
    if k == 0 {
    } else {
      FromTo(n / 256, k - 1);
      assert ToBytes(n, k)[1..] == ToBytes(n / 256, k - 1);
    }
  }

  lemma {:induction false} ToFrom(s: seq<byte>)
    ensures FromBytes(s) < Pow256(|s|)
    ensures ToBytes(FromBytes(s), |s|) == s
  {
    if s == [] {
    } else {
      ToFrom(s[1..]);
      var n := FromBytes(s);
      assert n % 256 == s[0] && n / 256 == FromBytes(s[1..]);
      assert s == [s[0]] + s[1..];
    }
  }

  lemma {:induction false} FromZeros(s: seq<byte>)
    requires forall i | 0 <= i < |s| :: s[i] == 0
    ensures FromBytes(s) == 0
  {
    if s == [] {
    } else {
      FromZeros(s[1..]);
    }
  }

  // ---- Arrays of words ----

  /** Words of `w` bytes each, one after the other. */
  function Pack(words: seq<nat>, w: nat): (s: seq<byte>)
    ensures |s| == |words| * w
  {
    if words == [] then [] else ToBytes(words[0], w) + Pack(words[1..], w)
  }

  /** The `i`th word of `w` bytes in `s`. */
  function WordAt(s: seq<byte>, w: nat, i: nat): nat
    requires (i + 1) * w <= |s|
  {
    assert i * w + w == (i + 1) * w;
    FromBytes(s[i * w..i * w + w])
  }

  lemma {:induction false} PackAt(words: seq<nat>, w: nat, i: nat)
    requires i < |words|
    ensures i * w + w <= |words| * w
    ensures Pack(words, w)[i * w..i * w + w] == ToBytes(words[i], w)
  {
    MulMonotone(i + 1, |words|, w);
    if i == 0 {
    } else {
      PackAt(words[1..], w, i - 1);
      PackLater(ToBytes(words[0], w), Pack(words[1..], w), w, i);
    }
  }

  lemma PackLater(a: seq<byte>, b: seq<byte>, w: nat, i: nat)
    requires |a| == w && i > 0 && (i - 1) * w + w <= |b|
    ensures i * w + w <= |a + b|
    ensures (a + b)[i * w..i * w + w] == b[(i - 1) * w..(i - 1) * w + w]
  {
    assert i * w == (i - 1) * w + w;
    DropSlice(a, b, (i - 1) * w, w);
  }

  lemma DropSlice(a: seq<byte>, b: seq<byte>, at: nat, w: nat)
    requires |a| == w && at + w <= |b|
    ensures (a + b)[at + w..at + w + w] == b[at..at + w]
  {
  }

  lemma MulMonotone(a: nat, b: nat, w: nat)
    requires a <= b
    ensures a * w <= b * w
  {
    assert b * w == a * w + (b - a) * w;
  }

  /** Reading back what was packed. */
  lemma PackRoundTrip(words: seq<nat>, w: nat, i: nat)
    requires i < |words| && words[i] < Pow256(w)
    ensures (i + 1) * w <= |words| * w
    ensures WordAt(Pack(words, w), w, i) == words[i]
  {
    PackAt(words, w, i);
    FromTo(words[i], w);
  }

  /** `s` with its `i`th word of `w` bytes set to `v`. */
  function PutWord(s: seq<byte>, w: nat, i: nat, v: nat): (r: seq<byte>)
    requires (i + 1) * w <= |s|
    ensures |r| == |s|
  {
    assert i * w + w == (i + 1) * w;
    s[..i * w] + ToBytes(v, w) + s[i * w + w..]
  }

  /** A word store changes the word it names and no other. */
  lemma PutWordAt(s: seq<byte>, w: nat, i: nat, v: nat, j: nat)
    requires (i + 1) * w <= |s| && (j + 1) * w <= |s| && v < Pow256(w)
    ensures WordAt(PutWord(s, w, i, v), w, j) == if i == j then v else WordAt(s, w, j)
  {
    var r := PutWord(s, w, i, v);
    assert i * w + w == (i + 1) * w && j * w + w == (j + 1) * w;
    if i == j {
      assert r[i * w..i * w + w] == ToBytes(v, w);
      FromTo(v, w);
    } else {
      if i < j {
        MulMonotone(i + 1, j, w);
      } else {
        MulMonotone(j + 1, i, w);
      }
      assert r[j * w..j * w + w] == s[j * w..j * w + w];
    }
  }
}
