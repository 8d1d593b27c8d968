/** Full shard keys and the branches (shards) they belong to: 32-bit arithmetic as in the source. */
module ShardKeys {

  /** A branch is its value: chain id in the high half, shard size | shard id in the low half. */
  type Branch = bv32

  /** True of the powers of two, and also of zero. */
  predicate IsP2(n: bv32) {
    n & (n - 1) == 0
  }

  predicate ValidSize(size: bv32) {
    0 < size <= 0x8000 && IsP2(size)
  }

  /** The number of bits needed to write v. */
  function IntLeftMostBit(v: bv32): nat
    decreases v
  {
    if v == 0 then 0 else 1 + IntLeftMostBit(v >> 1)
  }

  /** One shifted left n times; zero once the bit has left the word. */
  function OneShifted(n: nat): bv32 {
    if n == 0 then 1 else OneShifted(n - 1) << 1
  }

  /** v with every bit below its highest set bit also set. */
  function Smear(v: bv32): bv32 {
    var a := v | (v >> 1);
    var b := a | (a >> 2);
    var c := b | (b >> 4);
    var d := c | (c >> 8);
    d | (d >> 16)
  }

  /** The highest set bit of v, or zero. */
  function TopBit(v: bv32): bv32 {
    Smear(v) ^ (Smear(v) >> 1)
  }

  lemma TopBitHalf(v: bv32)
    requires v >> 1 != 0
    ensures TopBit(v) == TopBit(v >> 1) << 1
  {
  }

  /** The source writes the highest set bit of v as 1 << (IntLeftMostBit(v) - 1). */
  lemma {:induction false} TopBitIsShift(v: bv32)
    requires v != 0
    ensures IntLeftMostBit(v) > 0 && TopBit(v) == OneShifted(IntLeftMostBit(v) - 1)
    decreases v
  {
    if v >> 1 == 0 {
      assert v == 1 && TopBit(1) == 1;
    } else {
      TopBitHalf(v);
      TopBitIsShift(v >> 1);
    }
  }

  function High(v: bv32): bv32 {
    v >> 16
  }

  function Low(v: bv32): bv32 {
    v & 0xFFFF
  }

  /** The key bits that select a shard among `size` of them. */
  function Select(key: bv32, size: bv32): bv32 {
    key & (size - 1)
  }

  function ShardSize(b: Branch): bv32 {
    TopBit(Low(b))
  }

  function ShardID(b: Branch): bv32 {
    Low(b) ^ ShardSize(b)
  }

  predicate IsInBranch(b: Branch, fullShardKey: bv32) {
    High(fullShardKey) == High(b) && Select(fullShardKey, ShardSize(b)) == ShardID(b)
  }

  function Join(chainID: bv32, shardSize: bv32, shardID: bv32): Branch {
    (chainID << 16) | shardSize | shardID
  }

  /** The full shard id of a key under a shard size. */
  function FullShardID(fullShardKey: bv32, shardSize: bv32): Branch {
    Join(High(fullShardKey), shardSize, Select(fullShardKey, shardSize))
  }

  /** A shard key with its shard-selecting bits replaced. */
  function Replace(shardKey: bv32, size: bv32, id: bv32): bv32 {
    (shardKey & !(size - 1)) + id
  }

  function Glue(chainID: bv32, shardKey: bv32): bv32 {
    (chainID << 16) | shardKey
  }

  /** The key of an address moved into a branch: the bits above the shard id are kept. */
  function KeyInBranch(fullShardKey: bv32, b: Branch): bv32 {
    Glue(High(b), Replace(Low(fullShardKey), ShardSize(b), ShardID(b)))
  }

  // Single bit-level facts; the results below combine them without looking at the bits again.

  lemma JoinHigh(c: bv32, size: bv32, id: bv32)
    requires c <= 0xFFFF && ValidSize(size) && id < size
    ensures High(Join(c, size, id)) == c
  {
  }

  lemma JoinSize(c: bv32, size: bv32, id: bv32)
    requires c <= 0xFFFF && ValidSize(size) && id < size
    ensures ShardSize(Join(c, size, id)) == size
  {
  }

  lemma JoinID(c: bv32, size: bv32, id: bv32)
    requires c <= 0xFFFF && ValidSize(size) && id < size
    ensures ShardID(Join(c, size, id)) == id
  {
    JoinSize(c, size, id);
  }

  lemma HighBound(v: bv32)
    ensures High(v) <= 0xFFFF
  {
  }

  lemma SelectBound(key: bv32, size: bv32)
    requires size != 0
    ensures Select(key, size) < size
  {
    MaskedAtMost(key, size - 1);
    OneLess(size);
  }

  lemma MaskedAtMost(a: bv32, b: bv32)
    ensures a & b <= b
  {
  }

  lemma OneLess(size: bv32)
    requires size != 0
    ensures size - 1 < size
  {
  }

  lemma SizeOfBranch(b: Branch)
    requires WellFormed(b)
    ensures ValidSize(ShardSize(b))
  {
  }

  lemma IdOfBranch(b: Branch)
    requires WellFormed(b)
    ensures ShardID(b) < ShardSize(b)
  {
  }

  lemma LowRejoined(b: Branch)
    ensures ShardSize(b) | ShardID(b) == Low(b)
  {
  }

  lemma HalvesRejoined(b: Branch, size: bv32, id: bv32)
    requires size | id == Low(b)
    ensures Join(High(b), size, id) == b
  {
  }

  lemma GlueHigh(c: bv32, k: bv32)
    requires c <= 0xFFFF && k <= 0xFFFF
    ensures High(Glue(c, k)) == c
  {
  }

  lemma GlueSelect(c: bv32, k: bv32, size: bv32)
    requires ValidSize(size)
    ensures Select(Glue(c, k), size) == Select(k, size)
  {
  }

  lemma GlueHalves(key: bv32)
    ensures Glue(High(key), Low(key)) == key
  {
  }

  lemma LowSelect(key: bv32, size: bv32)
    requires ValidSize(size)
    ensures Select(Low(key), size) == Select(key, size)
  {
  }

  lemma LowBound(v: bv32)
    ensures Low(v) <= 0xFFFF
  {
  }

  lemma ReplaceBound(k: bv32, size: bv32, id: bv32)
    requires ValidSize(size) && id < size && k <= 0xFFFF
    ensures Replace(k, size, id) <= 0xFFFF
  {
  }

  lemma ReplaceSelect(k: bv32, size: bv32, id: bv32)
    requires ValidSize(size) && id < size
    ensures Select(Replace(k, size, id), size) == id
  {
  }

  lemma ReplaceSame(k: bv32, size: bv32)
    requires ValidSize(size)
    ensures Replace(k, size, Select(k, size)) == k
  {
  }

  /** Chain, size and id can all be read back from a branch built from them. */
  lemma BranchRoundTrip(chainID: bv32, size: bv32, id: bv32)
    requires chainID <= 0xFFFF && ValidSize(size) && id < size
    ensures var b := Join(chainID, size, id);
            High(b) == chainID && ShardSize(b) == size && ShardID(b) == id
  {
    hide Join, High, ShardSize, ShardID, IsP2;
    JoinHigh(chainID, size, id);
    JoinSize(chainID, size, id);
    JoinID(chainID, size, id);
  }

  /** Of the branches of all chains with one shard size, a key lies in FullShardID(key) and no other. */
  lemma OneBranchPerKey(key: bv32, size: bv32, chainID: bv32, id: bv32)
    requires chainID <= 0xFFFF && ValidSize(size) && id < size
    ensures IsInBranch(Join(chainID, size, id), key) <==> Join(chainID, size, id) == FullShardID(key, size)
  {
    hide Join, High, Select, ShardSize, ShardID, IsP2;
    BranchRoundTrip(chainID, size, id);
    HighBound(key);
    SelectBound(key, size);
    BranchRoundTrip(High(key), size, Select(key, size));
  }

  /**
   * The size limit is exact: among the sizes the source accepts (zero and the powers of two), every
   * key lies in the branch its full shard id names just for the sizes from 1 to 2^15.
   */
  lemma SizeLimitExact(size: bv32)
    requires IsP2(size)
    ensures (forall key :: IsInBranch(FullShardID(key, size), key)) <==> ValidSize(size)
  {
    if ValidSize(size) {
      forall key ensures IsInBranch(FullShardID(key, size), key) {
        hide Join, High, Select, ShardSize, ShardID, IsP2;
        HighBound(key);
        SelectBound(key, size);
        OneBranchPerKey(key, size, High(key), Select(key, size));
      }
    } else if size == 0 {
      assert !IsInBranch(FullShardID(0x10000, 0), 0x10000);
    } else {
      OversizedBranch(size);
      assert !IsInBranch(FullShardID(0, size), 0);
    }
  }

  lemma OversizedBranch(size: bv32)
    requires IsP2(size) && size > 0x8000
    ensures High(FullShardID(0, size)) != High(0)
  {
  }

  /** A branch that names a shard. */
  predicate WellFormed(b: Branch) {
    Low(b) != 0
  }

  lemma WellFormedParts(b: Branch)
    requires WellFormed(b)
    ensures ValidSize(ShardSize(b)) && ShardID(b) < ShardSize(b) && High(b) <= 0xFFFF
    ensures Join(High(b), ShardSize(b), ShardID(b)) == b
  {
    hide Join, High, Low, ShardSize, ShardID, IsP2;
    SizeOfBranch(b);
    IdOfBranch(b);
    HighBound(b);
    LowRejoined(b);
    HalvesRejoined(b, ShardSize(b), ShardID(b));
  }

  /** Moving an address into a branch lands in it, and moves exactly the addresses outside it. */
  lemma KeyInBranchLands(key: bv32, b: Branch)
    requires WellFormed(b)
    ensures IsInBranch(b, KeyInBranch(key, b))
    ensures KeyInBranch(key, b) == key <==> IsInBranch(b, key)
  {
    hide Join, High, Low, ShardSize, ShardID, IsP2, Select, Replace, Glue, WellFormed;
    WellFormedParts(b);
    var size, id, low := ShardSize(b), ShardID(b), Low(key);
    LowBound(key);
    ReplaceBound(low, size, id);
    GlueHigh(High(b), Replace(low, size, id));
    GlueSelect(High(b), Replace(low, size, id), size);
    ReplaceSelect(low, size, id);
    LowSelect(key, size);
    ReplaceSame(low, size);
    GlueHalves(key);
  }

  /** The configured shard sizes, by chain. */
  datatype Config = Config(shardSizes: map<bv32, bv32>)

  ghost predicate ValidConfig(cfg: Config) {
    forall c :: c in cfg.shardSizes ==> c <= 0xFFFF && ValidSize(cfg.shardSizes[c])
  }

  /** The configured shards: for every chain one branch per shard id below the chain's size. */
  ghost predicate IsShard(cfg: Config, b: Branch) {
    WellFormed(b) && High(b) in cfg.shardSizes && ShardSize(b) == cfg.shardSizes[High(b)]
  }

  datatype Lookup = NoSuchChain | Found(fullShardId: Branch)

  function FullShardIdByFullShardKey(cfg: Config, key: bv32): (r: Lookup) {
    if High(key) !in cfg.shardSizes then NoSuchChain
    else Found(FullShardID(key, cfg.shardSizes[High(key)]))
  }

  /** The configuration lookup names the one configured shard whose branch holds the key, if any. */
  lemma LookupIsPartition(cfg: Config, key: bv32, b: Branch)
    requires ValidConfig(cfg) && IsShard(cfg, b)
    ensures IsInBranch(b, key) <==> FullShardIdByFullShardKey(cfg, key) == Found(b)
  {
    hide Join, High, Low, Select, ShardSize, ShardID, IsP2, WellFormed;
    WellFormedParts(b);
    OneBranchPerKey(key, ShardSize(b), High(b), ShardID(b));
    if High(key) in cfg.shardSizes {
      var size := cfg.shardSizes[High(key)];
      HighBound(key);
      SelectBound(key, size);
      BranchRoundTrip(High(key), size, Select(key, size));
    }
  }

  /** Every key of a configured chain is found, in a configured shard. */
  lemma LookupFindsShard(cfg: Config, key: bv32)
    requires ValidConfig(cfg) && High(key) in cfg.shardSizes
    ensures FullShardIdByFullShardKey(cfg, key).Found?
    ensures IsShard(cfg, FullShardIdByFullShardKey(cfg, key).fullShardId)
  {
    hide Join, High, Select, IsP2, IsShard;
    HighBound(key);
    SelectBound(key, cfg.shardSizes[High(key)]);
    JoinedShard(cfg, High(key), Select(key, cfg.shardSizes[High(key)]));
  }

  lemma JoinedShard(cfg: Config, c: bv32, id: bv32)
    requires ValidConfig(cfg) && c in cfg.shardSizes && id < cfg.shardSizes[c]
    ensures IsShard(cfg, Join(c, cfg.shardSizes[c], id))
  {
    hide Join, High, ShardSize, ShardID, IsP2, WellFormed;
    BranchRoundTrip(c, cfg.shardSizes[c], id);
    JoinedLow(c, cfg.shardSizes[c], id);
  }

  lemma JoinedLow(chainID: bv32, size: bv32, id: bv32)
    requires ValidSize(size) && id < size
    ensures WellFormed(Join(chainID, size, id))
  {
  }

  // ---------- neighbours ----------

  predicate Above(a: bv32, b: bv32) {
    a as int > b as int
  }

  function Distance(a: bv32, b: bv32): bv32 {
    if Above(a, b) then a - b else b - a
  }

  /** Up to 32 shards all are neighbours; beyond that, one of chain and shard id is the same and the other
      differs by a power of two (or not at all). */
  predicate IsNeighbor(b1: Branch, b2: Branch, shardCount: nat) {
    if shardCount <= 32 then true
    else if High(b1) == High(b2) then IsP2(Distance(ShardID(b1), ShardID(b2)))
    else if ShardID(b1) == ShardID(b2) then IsP2(Distance(High(b1), High(b2)))
    else false
  }

  lemma DistanceSymmetric(a: bv32, b: bv32)
    ensures Distance(a, b) == Distance(b, a)
  {
    if a as int == b as int {
      assert a as int as bv32 == a && b as int as bv32 == b;
    }
  }

  /** The distance is how far the greater one is above the other, whichever comes first. */
  lemma DistanceIs(a: bv32, b: bv32)
    requires Above(a, b)
    ensures Distance(a, b) == Distance(b, a) == a - b
  {
    DistanceSymmetric(a, b);
  }

  /** Beyond 32 shards, two shards of a chain are neighbours exactly if their ids are a power of two apart. */
  lemma NeighborsInChain(b1: Branch, b2: Branch, shardCount: nat, d: bv32)
    requires shardCount > 32 && High(b1) == High(b2) && Above(ShardID(b1), ShardID(b2)) && d == ShardID(b1) - ShardID(b2)
    ensures IsNeighbor(b1, b2, shardCount) <==> IsP2(d)
  {
    DistanceIs(ShardID(b1), ShardID(b2));
    hide Distance, IsP2, High, ShardID, Above;
  }

  /** Two shards of different chains are exactly if they have the same id and the chains are a power of two apart. */
  lemma NeighborsAcross(b1: Branch, b2: Branch, shardCount: nat, d: bv32)
    requires shardCount > 32 && Above(High(b1), High(b2)) && High(b1) != High(b2) && d == High(b1) - High(b2)
    ensures IsNeighbor(b1, b2, shardCount) <==> ShardID(b1) == ShardID(b2) && IsP2(d)
  {
    DistanceIs(High(b1), High(b2));
    hide Distance, IsP2, High, ShardID, Above;
  }

  lemma NeighborSymmetric(b1: Branch, b2: Branch, shardCount: nat)
    ensures IsNeighbor(b1, b2, shardCount) <==> IsNeighbor(b2, b1, shardCount)
  {
    hide Distance, IsP2, High, ShardID;
    DistanceSymmetric(ShardID(b1), ShardID(b2));
    DistanceSymmetric(High(b1), High(b2));
  }
}
