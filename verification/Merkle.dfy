/** Job templates and the merkle root a rolled extranonce gives. */
module Jobs {
  import opened Extranonces

  type Hash = seq<byte>

  datatype MerkleRootTemplate = MerkleRootTemplate(
    coinbasePrefix: seq<byte>,
    extranoncePrefix: seq<byte>,
    extranonceRange: ExtranonceRange,
    coinbaseSuffix: seq<byte>,
    merkleBranches: seq<Hash>)

  datatype MerkleRootKind =
    | Fixed(root: Hash)
    | Computed(template: MerkleRootTemplate)

  /** The version field of a job: base version and the bits the miner may roll. */
  datatype VersionTemplate = VersionTemplate(base: nat, rollable: nat)

  datatype JobTemplate = JobTemplate(
    id: string,
    prevBlockhash: Hash,
    version: VersionTemplate,
    bits: nat,
    shareTarget: nat,
    time: nat,
    merkleRoot: MerkleRootKind)
}

module Merkle {
  import opened Options
  import opened Extranonces
  import opened Jobs

  /** SHA-256d, and the txid of a coinbase that parses; both kept abstract. */
  datatype Hasher = Hasher(sha256d: seq<byte> -> Hash, txid: seq<byte> -> Option<Hash>)
  {
    function Pair(left: Hash, right: Hash): Hash {
      sha256d(left + right)
    }
  }

  function Coinbase(t: MerkleRootTemplate, e: Extranonce): seq<byte> {
    t.coinbasePrefix + t.extranoncePrefix + e.Bytes() + t.coinbaseSuffix
  }

  /** The pool's prefix, its part of the extranonce, the miner's part, and the pool's suffix, in this order. */
  lemma CoinbaseLayout(t: MerkleRootTemplate, e: Extranonce)
    requires e.Valid()
    ensures var c, a := Coinbase(t, e), |t.coinbasePrefix|;
            var b := a + |t.extranoncePrefix|;
            && |c| == b + e.width + |t.coinbaseSuffix|
            && c[..a] == t.coinbasePrefix && c[a..b] == t.extranoncePrefix
            && FromBytes(c[b..b + e.width]) == Ok(e) && c[b + e.width..] == t.coinbaseSuffix
  {
    DecodeEncode(e);
    FourPieces(t.coinbasePrefix, t.extranoncePrefix, e.Bytes(), t.coinbaseSuffix);
  }

  lemma FourPieces(p: seq<byte>, q: seq<byte>, r: seq<byte>, s: seq<byte>)
    ensures var all, a, b := p + q + r + s, |p|, |p| + |q|;
            && |all| == b + |r| + |s|
            && all[..a] == p && all[a..b] == q && all[b..b + |r|] == r && all[b + |r|..] == s
  {
  }

  /** Two extranonces of one slot never build the same coinbase. */
  lemma CoinbaseInjective(t: MerkleRootTemplate, a: Extranonce, b: Extranonce)
    requires a.Valid() && b.Valid() && a.width == b.width
    requires Coinbase(t, a) == Coinbase(t, b)
    ensures a == b
  {
    DecodeEncode(a);
    DecodeEncode(b);
    var k := |t.coinbasePrefix + t.extranoncePrefix|;
    assert Coinbase(t, a)[k..k + a.width] == a.Bytes();
    assert Coinbase(t, b)[k..k + a.width] == b.Bytes();
    BytesInjective(a, b);
  }

  /** The hash reached from `id` through the siblings in `path`, lowest first. */
  function Climb(h: Hasher, id: Hash, path: seq<Hash>): Hash
    decreases |path|
  {
    if path == [] then id else Climb(h, h.Pair(id, path[0]), path[1..])
  }

  method ComputeMerkleRoot(h: Hasher, t: MerkleRootTemplate, e: Extranonce) returns (root: Option<Hash>)
    ensures root == match h.txid(Coinbase(t, e))
                    case None => None
                    case Some(id) => Some(Climb(h, id, t.merkleBranches))
  {
    var coinbaseBytes := [];
    coinbaseBytes := coinbaseBytes + t.coinbasePrefix;
    coinbaseBytes := coinbaseBytes + t.extranoncePrefix;
    coinbaseBytes := coinbaseBytes + e.Bytes();
    coinbaseBytes := coinbaseBytes + t.coinbaseSuffix;
    assert coinbaseBytes == Coinbase(t, e);

    var coinbase := h.txid(coinbaseBytes);
    if coinbase.None? {
      return None;
    }
    var currentHash := coinbase.value;
    for k := 0 to |t.merkleBranches|
      invariant Climb(h, currentHash, t.merkleBranches[k..]) == Climb(h, coinbase.value, t.merkleBranches)
    {
      var combined := currentHash + t.merkleBranches[k];
      assert t.merkleBranches[k..][1..] == t.merkleBranches[k + 1..];
      currentHash := h.sha256d(combined);
    }
    root := Some(currentHash);
  }

  // ------------------------------------------- the whole transaction tree

  /** One level up: neighbours are paired, and an odd last one is paired with itself. */
  function Level(h: Hasher, hs: seq<Hash>): (up: seq<Hash>)
    ensures |up| == (|hs| + 1) / 2
  {
    seq((|hs| + 1) / 2, (k: nat) requires k < (|hs| + 1) / 2 =>
      h.sha256d(hs[2 * k] + if 2 * k + 1 < |hs| then hs[2 * k + 1] else hs[2 * k]))
  }

  function Root(h: Hasher, hs: seq<Hash>): Hash
    requires hs != []
    decreases |hs|
  {
    if |hs| == 1 then hs[0] else Root(h, Level(h, hs))
  }

  /** The siblings of the first leaf, lowest first: what a pool sends as branches. */
  function FirstLeafPath(h: Hasher, hs: seq<Hash>): seq<Hash>
    requires hs != []
    decreases |hs|
  {
    if |hs| == 1 then [] else [hs[1]] + FirstLeafPath(h, Level(h, hs))
  }

  /**
   * Climbing from any coinbase id through the branches gives the root of the block's
   * tree with that coinbase in place, and the branches themselves do not depend on
   * the coinbase: one list of branches serves every rolled extranonce.
   */
  lemma {:induction false} ClimbReachesRoot(h: Hasher, hs: seq<Hash>, id: Hash)
    requires hs != []
    ensures FirstLeafPath(h, hs[0 := id]) == FirstLeafPath(h, hs)
    ensures Climb(h, id, FirstLeafPath(h, hs)) == Root(h, hs[0 := id])
    decreases |hs|
  {
    if |hs| > 1 {
      var parent := h.Pair(id, hs[1]);
      assert Level(h, hs[0 := id]) == Level(h, hs)[0 := parent];
      ClimbReachesRoot(h, Level(h, hs), parent);
      var path := FirstLeafPath(h, hs);
      assert path[0] == hs[1] && path[1..] == FirstLeafPath(h, Level(h, hs));
    }
  }
}
