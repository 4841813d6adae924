/**
 The Merkle tree of tendermint/src/merkle.rs.

 The digest is a parameter.  No function with 32-byte outputs is injective, so
 nothing here supposes that it is: the binding theorem hands over the two
 inputs that collide, and both are inputs that hashing the two lists really
 fed to the digest.
 */
module Merkle {
  import opened Common

  type DigestFn = seq<Byte> -> Digest

  const LEAF_PREFIX: Byte := 0x00
  const INNER_PREFIX: Byte := 0x01

  function LeafInput(leaf: seq<Byte>): seq<Byte> {
    [LEAF_PREFIX] + leaf
  }

  function InnerInput(left: Digest, right: Digest): seq<Byte> {
    [INNER_PREFIX] + left + right
  }

  ghost predicate IsPowerOfTwo(p: nat) {
    p == 1 || (p % 2 == 0 && p > 0 && IsPowerOfTwo(p / 2))
  }

  /** The least power of two that is at least `n`, found by doubling from `p`. */
  function NextPowerOfTwoFrom(n: nat, p: nat): (r: nat)
    requires IsPowerOfTwo(p)
    requires p == 1 || p / 2 < n
    ensures IsPowerOfTwo(r) && n <= r
    ensures r == 1 || r / 2 < n
    decreases n - p
  {
    if n <= p then p else NextPowerOfTwoFrom(n, 2 * p)
  }

  function NextPowerOfTwo(n: nat): nat {
    NextPowerOfTwoFrom(n, 1)
  }

  /** Where a list of two or more leaves is cut. */
  function Split(n: nat): (k: nat)
    requires n >= 2
    ensures IsPowerOfTwo(k) && k < n <= 2 * k
  {
    NextPowerOfTwo(n) / 2
  }

  lemma {:induction false} PowersOfTwoDouble(p: nat, q: nat)
    requires IsPowerOfTwo(p) && IsPowerOfTwo(q) && p < q
    ensures 2 * p <= q
  {
    if p > 1 {
      PowersOfTwoDouble(p / 2, q / 2);
    }
  }

  ghost predicate LargestPowerOfTwoBelow(k: nat, n: nat) {
    IsPowerOfTwo(k) && k < n && forall p: nat :: IsPowerOfTwo(p) && p < n ==> p <= k
  }

  /** The cut is the one of section 2.1 of RFC 6962, and no other number is. */
  lemma SplitIsRfc6962(n: nat, k: nat)
    requires n >= 2
    ensures k == Split(n) <==> LargestPowerOfTwoBelow(k, n)
  {
    forall p: nat | IsPowerOfTwo(p) && p < n
      ensures p <= Split(n)
    {
      if Split(n) < p {
        PowersOfTwoDouble(Split(n), p);
      }
    }
    assert LargestPowerOfTwoBelow(Split(n), n);
  }

  /** The Merkle root of a list of byte strings. */
  function Root(digest: DigestFn, leaves: seq<seq<Byte>>): Digest
    decreases |leaves|
  {
    if |leaves| == 0 then digest([])
    else if |leaves| == 1 then digest(LeafInput(leaves[0]))
    else
      var k := Split(|leaves|);
      digest(InnerInput(Root(digest, leaves[..k]), Root(digest, leaves[k..])))
  }

  /** The root is the Merkle tree hash of section 2.1 of RFC 6962. */
  lemma RootIsRfc6962(digest: DigestFn, leaves: seq<seq<Byte>>, k: nat)
    ensures |leaves| == 0 ==> Root(digest, leaves) == digest([])
    ensures |leaves| == 1 ==> Root(digest, leaves) == digest([0x00] + leaves[0])
    ensures |leaves| >= 2 && LargestPowerOfTwoBelow(k, |leaves|) ==>
              Root(digest, leaves) == digest([0x01] + Root(digest, leaves[..k]) + Root(digest, leaves[k..]))
  {
    if |leaves| >= 2 {
      SplitIsRfc6962(|leaves|, k);
    }
  }

  /** The byte string whose digest is the root. */
  function TopInput(digest: DigestFn, leaves: seq<seq<Byte>>): seq<Byte> {
    if |leaves| == 0 then []
    else if |leaves| == 1 then LeafInput(leaves[0])
    else
      var k := Split(|leaves|);
      InnerInput(Root(digest, leaves[..k]), Root(digest, leaves[k..]))
  }

  /** Every byte string fed to the digest while hashing `leaves`. */
  function Inputs(digest: DigestFn, leaves: seq<seq<Byte>>): set<seq<Byte>>
    decreases |leaves|
  {
    {TopInput(digest, leaves)} +
    if |leaves| <= 1 then {}
    else
      var k := Split(|leaves|);
      Inputs(digest, leaves[..k]) + Inputs(digest, leaves[k..])
  }

  ghost predicate Collision(digest: DigestFn, a: seq<Byte>, b: seq<Byte>) {
    a != b && digest(a) == digest(b)
  }

  /** `digest` does not collide on the inputs in `domain`. */
  ghost predicate CollisionFreeOn(digest: DigestFn, domain: set<seq<Byte>>) {
    forall a, b :: a in domain && b in domain && digest(a) == digest(b) ==> a == b
  }

  lemma InnerInputsDetermineHalves(l: Digest, r: Digest, l': Digest, r': Digest)
    requires InnerInput(l, r) == InnerInput(l', r')
    ensures l == l' && r == r'
  {
    var a, b := InnerInput(l, r), InnerInput(l', r');
    assert a[1..HASH_SIZE + 1] == l && b[1..HASH_SIZE + 1] == l';
    assert a[HASH_SIZE + 1..] == r && b[HASH_SIZE + 1..] == r';
  }

  /** The prefix bytes keep empty lists, single leaves and inner nodes apart. */
  lemma TopInputShape(digest: DigestFn, leaves: seq<seq<Byte>>)
    ensures |leaves| == 0 <==> TopInput(digest, leaves) == []
    ensures |leaves| == 1 <==> TopInput(digest, leaves) != [] && TopInput(digest, leaves)[0] == LEAF_PREFIX
    ensures |leaves| == 1 ==> leaves == [TopInput(digest, leaves)[1..]]
  {
    if |leaves| == 1 {
      assert LeafInput(leaves[0])[1..] == leaves[0];
      assert leaves == [leaves[0]];
    }
  }

  /** Equal top inputs push the difference between two lists into one of the halves. */
  lemma EqualTopInputs(digest: DigestFn, xs: seq<seq<Byte>>, ys: seq<seq<Byte>>)
    requires xs != ys && TopInput(digest, xs) == TopInput(digest, ys)
    ensures |xs| >= 2 && |ys| >= 2
    ensures Root(digest, xs[..Split(|xs|)]) == Root(digest, ys[..Split(|ys|)])
    ensures Root(digest, xs[Split(|xs|)..]) == Root(digest, ys[Split(|ys|)..])
    ensures xs[..Split(|xs|)] != ys[..Split(|ys|)] || xs[Split(|xs|)..] != ys[Split(|ys|)..]
  {
    TopInputShape(digest, xs);
    TopInputShape(digest, ys);
    var i, j := Split(|xs|), Split(|ys|);
    InnerInputsDetermineHalves(Root(digest, xs[..i]), Root(digest, xs[i..]),
                               Root(digest, ys[..j]), Root(digest, ys[j..]));
    assert xs == xs[..i] + xs[i..] && ys == ys[..j] + ys[j..];
  }

  lemma RootIsDigestOfTopInput(digest: DigestFn, leaves: seq<seq<Byte>>)
    ensures Root(digest, leaves) == digest(TopInput(digest, leaves))
    ensures TopInput(digest, leaves) in Inputs(digest, leaves)
  {
  }

  lemma InputsOfHalves(digest: DigestFn, leaves: seq<seq<Byte>>)
    requires |leaves| >= 2
    ensures Inputs(digest, leaves[..Split(|leaves|)]) <= Inputs(digest, leaves)
    ensures Inputs(digest, leaves[Split(|leaves|)..]) <= Inputs(digest, leaves)
  {
  }

  /**
   From two different lists, of any lengths, with one root: a collision of the
   digest between an input hashed for the first list and one hashed for the
   second.
   */
  lemma {:induction false} BindingOrCollision(digest: DigestFn, xs: seq<seq<Byte>>, ys: seq<seq<Byte>>)
    returns (a: seq<Byte>, b: seq<Byte>)
    requires xs != ys && Root(digest, xs) == Root(digest, ys)
    ensures Collision(digest, a, b)
    ensures a in Inputs(digest, xs) && b in Inputs(digest, ys)
    decreases |xs|
  {
    RootIsDigestOfTopInput(digest, xs);
    RootIsDigestOfTopInput(digest, ys);
    a, b := TopInput(digest, xs), TopInput(digest, ys);
    if a == b {
      EqualTopInputs(digest, xs, ys);
      InputsOfHalves(digest, xs);
      InputsOfHalves(digest, ys);
      var i, j := Split(|xs|), Split(|ys|);
      if xs[..i] != ys[..j] {
        a, b := BindingOrCollision(digest, xs[..i], ys[..j]);
      } else {
        a, b := BindingOrCollision(digest, xs[i..], ys[j..]);
      }
    }
  }

  /** Where the digest does not collide, the root determines the list. */
  lemma RootBinds(digest: DigestFn, domain: set<seq<Byte>>, xs: seq<seq<Byte>>, ys: seq<seq<Byte>>)
    requires CollisionFreeOn(digest, domain)
    requires Inputs(digest, xs) <= domain && Inputs(digest, ys) <= domain
    ensures Root(digest, xs) == Root(digest, ys) <==> xs == ys
  {
    if Root(digest, xs) == Root(digest, ys) && xs != ys {
      var a, b := BindingOrCollision(digest, xs, ys);
    }
  }

  /** A digest state that is fed piecewise, as `Digest + FixedOutputReset` is. */
  class IncrementalHasher {
    const digest: DigestFn
    var fed: seq<Byte>

    constructor (digest: DigestFn)
      ensures this.digest == digest && fed == []
    {
      this.digest := digest;
      fed := [];
    }

    method Update(bytes: seq<Byte>)
      modifies this
      ensures fed == old(fed) + bytes
    {
      fed := fed + bytes;
    }

    method FinalizeReset() returns (output: Digest)
      modifies this
      ensures output == digest(old(fed)) && fed == []
    {
      output := digest(fed);
      fed := [];
    }

    method EmptyHash() returns (output: Digest)
      requires fed == []
      modifies this
      ensures fed == [] && output == Root(digest, [])
    {
      output := FinalizeReset();
    }

    method LeafHash(bytes: seq<Byte>) returns (output: Digest)
      requires fed == []
      modifies this
      ensures fed == [] && output == Root(digest, [bytes])
    {
      Update([LEAF_PREFIX]);
      Update(bytes);
      assert fed == LeafInput(bytes);
      output := FinalizeReset();
    }

    method InnerHash(left: Digest, right: Digest) returns (output: Digest)
      requires fed == []
      modifies this
      ensures fed == [] && output == digest(InnerInput(left, right))
    {
      Update([INNER_PREFIX]);
      Update(left);
      Update(right);
      assert fed == InnerInput(left, right);
      output := FinalizeReset();
    }

    /** Recursion into subtrees: starts and ends in the reset state and computes the root. */
    method HashByteVectors(leaves: seq<seq<Byte>>) returns (output: Digest)
      requires fed == []
      modifies this
      ensures fed == [] && output == Root(digest, leaves)
      decreases |leaves|
    {
      if |leaves| == 0 {
        output := EmptyHash();
      } else if |leaves| == 1 {
        output := LeafHash(leaves[0]);
        assert leaves == [leaves[0]];
      } else {
        var split := NextPowerOfTwo(|leaves|) / 2;
        assert split == Split(|leaves|);
        var left := HashByteVectors(leaves[..split]);
        var right := HashByteVectors(leaves[split..]);
        output := InnerHash(left, right);
      }
    }
  }

  /** The leaf hash for hosts that only digest whole buffers. */
  method NonIncrementalLeafHash(digest: DigestFn, bytes: seq<Byte>) returns (output: Digest)
    ensures output == Root(digest, [bytes])
  {
    var buf := [0];
    buf := buf + bytes;
    assert buf == LeafInput(bytes);
    output := digest(buf);
  }

  /** The inner hash for hosts that only digest whole buffers. */
  method NonIncrementalInnerHash(digest: DigestFn, left: Digest, right: Digest) returns (output: Digest)
    ensures output == digest(InnerInput(left, right))
  {
    var buf := new Byte[1 + HASH_SIZE * 2](_ => 0);
    buf[0] := 1;
    for i := 0 to HASH_SIZE
      invariant buf[0] == 1
      invariant forall k :: 0 <= k < i ==> buf[1 + k] == left[k]
    {
      buf[1 + i] := left[i];
    }
    for i := 0 to HASH_SIZE
      invariant buf[0] == 1
      invariant forall k :: 0 <= k < HASH_SIZE ==> buf[1 + k] == left[k]
      invariant forall k :: 0 <= k < i ==> buf[1 + HASH_SIZE + k] == right[k]
    {
      buf[1 + HASH_SIZE + i] := right[i];
    }
    ghost var input := InnerInput(left, right);
    forall k | 0 <= k < |input|
      ensures buf[k] == input[k]
    {
      if 1 <= k <= HASH_SIZE {
        assert buf[1 + (k - 1)] == left[k - 1];
      } else if HASH_SIZE < k {
        assert buf[1 + HASH_SIZE + (k - 1 - HASH_SIZE)] == right[k - 1 - HASH_SIZE];
      }
    }
    assert buf[..] == input;
    output := digest(buf[..]);
  }
}
