/** GNU hash tables of symbols (musl/ldso/dynlink.c:244-251, 267-298). */
module SymbolLookup {
  import opened Basics
  import opened Bytes

  const WORD_BITS := 64
  const HASH_LIMIT := 0x1_0000_0000

  /** A name, without the null byte at its end. */
  type Name = seq<byte>

  /** A symbol: its name, and whether its version does not hide it. */
  datatype Symbol = Symbol(name: Name, visible: bool)

  /** The parts of the table: where the hashed symbols start, the filter and its shift, the
      first symbol of each bucket, and the hash values of the hashed symbols, whose lowest
      bit marks the end of a bucket. */
  datatype Table = Table(symOffset: nat, bloom: seq<nat>, bloomShift: nat, buckets: seq<nat>, chain: seq<nat>)

  // ---- The hash ----

  function Pow33(n: nat): nat { if n == 0 then 1 else 33 * Pow33(n - 1) }

  /** The bytes of `s` as a number in base 33, the first of them the leading digit. */
  function Weighted(s: Name): nat {
    if s == [] then 0 else s[0] * Pow33(|s| - 1) + Weighted(s[1..])
  }

  /** 5381 * 33^n + s[0] * 33^(n-1) + ... + s[n-1], in 32 bits */
  function Hash(s: Name): nat { (5381 * Pow33(|s|) + Weighted(s)) % HASH_LIMIT }

  lemma {:induction false} WeightedSnoc(s: Name, x: byte)
    ensures Weighted(s + [x]) == 33 * Weighted(s) + x
    decreases |s|
  {
    if s == [] {
      assert (s + [x])[1..] == [];
    } else {
      var p := Pow33(|s| - 1);
      assert (s + [x])[1..] == s[1..] + [x];
      WeightedSnoc(s[1..], x);
      assert s[0] * (33 * p) == 33 * (s[0] * p);
    }
  }

  lemma ModStep(v: nat, x: byte)
    ensures (v % HASH_LIMIT + (v % HASH_LIMIT * 32 + x)) % HASH_LIMIT == (33 * v + x) % HASH_LIMIT
  {
    var t := 33 * (v % HASH_LIMIT) + x;
    RemainderIs(33 * v + x, HASH_LIMIT, 33 * (v / HASH_LIMIT) + t / HASH_LIMIT, t % HASH_LIMIT);
  }

  lemma HashSnoc(s: Name, x: byte)
    ensures Hash(s + [x]) == (Hash(s) + (Hash(s) * 32 + x)) % HASH_LIMIT
  {
    WeightedSnoc(s, x);
    ModStep(5381 * Pow33(|s|) + Weighted(s), x);
  }

  /** gnu_hash */
  method GnuHash(s: Name) returns (h: nat)
    ensures h == Hash(s) && h < HASH_LIMIT
  {
    h := 5381;
    for i := 0 to |s|
      invariant h == Hash(s[..i])
    {
      assert s[..i + 1] == s[..i] + [s[i]];
      HashSnoc(s[..i], s[i]);
      h := (h + (h * 32 + s[i])) % HASH_LIMIT;
    }
    assert s[..|s|] == s;
  }

  /** `a | 1` */
  function Odd(a: nat): nat { if a % 2 == 1 then a else a + 1 }

  // ---- Tables that are well formed ----

  function FilterWord(t: Table, h: nat): nat
    requires t.bloom != []
  {
    t.bloom[h / WORD_BITS % |t.bloom|]
  }

  /** The filter lets the hash `h` pass. */
  predicate Passes(t: Table, h: nat)
    requires t.bloom != []
  {
    Bit(FilterWord(t, h), h % WORD_BITS) && Bit(FilterWord(t, h), h / Pow2(t.bloomShift) % WORD_BITS)
  }

  function Bucket(t: Table, h: nat): nat
    requires t.buckets != []
  {
    h % |t.buckets|
  }

  /** Hashed symbol `i` passes the filter, its hash value is in the chain, marked when the
      next symbol is in another bucket, and its bucket starts at or before it. */
  ghost predicate EntryOk(t: Table, syms: seq<Symbol>, i: nat)
    requires t.buckets != [] && t.bloom != [] && t.symOffset <= i < |syms| && |t.chain| == |syms| - t.symOffset
  {
    var h, c := Hash(syms[i].name), t.chain[i - t.symOffset];
    && Passes(t, h) && Odd(c) == Odd(h)
    && (c % 2 == 1 <==> i + 1 == |syms| || Bucket(t, Hash(syms[i + 1].name)) != Bucket(t, h))
    && (i == t.symOffset || Bucket(t, Hash(syms[i - 1].name)) != Bucket(t, h) ==> t.buckets[Bucket(t, h)] == i)
  }

  /** A bucket that is not empty starts with one of its symbols. */
  ghost predicate BucketOk(t: Table, syms: seq<Symbol>, b: nat)
    requires b < |t.buckets|
  {
    var i := t.buckets[b];
    i == 0 || (t.symOffset <= i < |syms| && Bucket(t, Hash(syms[i].name)) == b)
  }

  ghost predicate WellFormed(t: Table, syms: seq<Symbol>) {
    && t.buckets != [] && t.bloom != [] && 0 < t.symOffset <= |syms| && |t.chain| == |syms| - t.symOffset
    && (forall i: nat {:trigger EntryOk(t, syms, i)} | t.symOffset <= i < |syms| :: EntryOk(t, syms, i))
    && (forall b: nat {:trigger BucketOk(t, syms, b)} | b < |t.buckets| :: BucketOk(t, syms, b))
    && (forall i: nat, j: nat {:trigger syms[i], syms[j]} | t.symOffset <= i <= j < |syms| :: Bucket(t, Hash(syms[i].name)) <= Bucket(t, Hash(syms[j].name)))
  }

  // ---- What a linear search finds ----

  ghost predicate Matches(syms: seq<Symbol>, i: nat, s: Name) {
    i < |syms| && syms[i].visible && syms[i].name == s
  }

  /** The first hashed symbol that is visible and named `s`. */
  ghost predicate Found(t: Table, syms: seq<Symbol>, s: Name, r: Option<nat>) {
    match r
    case None => forall i: nat | t.symOffset <= i :: !Matches(syms, i, s)
    case Some(k) => t.symOffset <= k && Matches(syms, k, s) && forall i: nat | t.symOffset <= i < k :: !Matches(syms, i, s)
  }

  /** The symbols of a bucket are the ones from its start to the next mark. */
  lemma {:induction false} BucketStart(t: Table, syms: seq<Symbol>, i: nat)
    requires WellFormed(t, syms) && t.symOffset <= i < |syms|
    ensures var b := Bucket(t, Hash(syms[i].name)); t.symOffset <= t.buckets[b] <= i && Bucket(t, Hash(syms[t.buckets[b]].name)) == b
  {
    assert EntryOk(t, syms, i);
    if i > t.symOffset && Bucket(t, Hash(syms[i - 1].name)) == Bucket(t, Hash(syms[i].name)) {
      BucketStart(t, syms, i - 1);
    }
  }

  /** Symbols named `s` come in the bucket of `s` only. */
  lemma OnlyInBucket(t: Table, syms: seq<Symbol>, s: Name, start: nat, i: nat)
    requires WellFormed(t, syms) && start == t.buckets[Bucket(t, Hash(s))] && t.symOffset <= i && Matches(syms, i, s)
    ensures start != 0 && start <= i
  {
    BucketStart(t, syms, i);
  }

  /** gnu_lookup: it finds what a linear search over the hashed symbols finds. */
  method GnuLookup(h1: nat, t: Table, syms: seq<Symbol>, s: Name) returns (r: Option<nat>)
    requires WellFormed(t, syms) && h1 == Hash(s)
    ensures Found(t, syms, s, r)
  {
    var b := h1 % |t.buckets|;
    var i := t.buckets[b];
    assert BucketOk(t, syms, b);
    forall k: nat | t.symOffset <= k && Matches(syms, k, s)
      ensures i != 0 && i <= k
    {
      OnlyInBucket(t, syms, s, i, k);
    }
    if i == 0 {
      return None;
    }
    while true
      invariant t.symOffset <= i < |syms| && Bucket(t, Hash(syms[i].name)) == b
      invariant forall k: nat | t.symOffset <= k < i :: !Matches(syms, k, s)
      decreases |syms| - i
    {
      var h2 := t.chain[i - t.symOffset];
      assert EntryOk(t, syms, i);
      if Odd(h1) == Odd(h2) && syms[i].visible && syms[i].name == s {
        return Some(i);
      }
      if h2 % 2 == 1 {
        PastBucket(t, syms, s, b, i);
        return None;
      }
      i := i + 1;
    }
  }

  lemma PastBucket(t: Table, syms: seq<Symbol>, s: Name, b: nat, i: nat)
    requires WellFormed(t, syms) && t.symOffset <= i < |syms| && b == Bucket(t, Hash(s)) == Bucket(t, Hash(syms[i].name))
    requires t.chain[i - t.symOffset] % 2 == 1
    ensures forall k: nat | i < k :: !Matches(syms, k, s)
  {
    assert EntryOk(t, syms, i);
    forall k: nat | i < k && k < |syms|
      ensures syms[k].name != s
    {
      assert Bucket(t, Hash(syms[i + 1].name)) <= Bucket(t, Hash(syms[k].name));
    }
  }

  /** gnu_lookup_filtered: the filter rejects no symbol that is there. */
  method GnuLookupFiltered(h1: nat, t: Table, syms: seq<Symbol>, s: Name) returns (r: Option<nat>)
    requires WellFormed(t, syms) && h1 == Hash(s)
    ensures Found(t, syms, s, r)
  {
    var f := t.bloom[h1 / WORD_BITS % |t.bloom|];
    forall k: nat | t.symOffset <= k && Matches(syms, k, s)
      ensures Passes(t, h1)
    {
      assert EntryOk(t, syms, k);
    }
    if !Bit(f, h1 % WORD_BITS) {
      return None;
    }
    if !Bit(f, h1 / Pow2(t.bloomShift) % WORD_BITS) {
      return None;
    }
    r := GnuLookup(h1, t, syms, s);
  }
}
