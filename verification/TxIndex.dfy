/** The transaction history keys and hash lookups that canonical minor blocks leave in the database. */
module TxIndex {
  import opened BlockTree
  import opened ChainTypes

  type Addr = s: Bytes | |s| == 20 witness [0, 0, 0, 0, 0, 0, 0, 0, 0, 0, 0, 0, 0, 0, 0, 0, 0, 0, 0, 0]

  const UINT32: nat := 0x1_0000_0000

  // ---------- key codec ----------

  function Uint32ToBytes(n: nat): (b: Bytes)
    ensures |b| == 4
  {
    [n / 0x100_0000 % 256, n / 0x1_0000 % 256, n / 0x100 % 256, n % 256]
  }

  function BytesToUint32(b: Bytes): nat
    requires |b| == 4
  {
    0x100_0000 * (b[0] as int) + 0x1_0000 * (b[1] as int) + 0x100 * (b[2] as int) + b[3] as int
  }

  const ADDRESS_TX_KEY: Bytes := [105, 97, 100, 100, 114]
  const ALL_TX_KEY: Bytes := [105, 97, 108, 108]

  function CrossShardByte(crossShard: bool): Bytes {
    [if crossShard then 0 else 1]
  }

  function EncodeAddressTxKey(addr: Addr, height: nat, index: nat, crossShard: bool): Bytes {
    ADDRESS_TX_KEY + addr + Uint32ToBytes(height % UINT32) + CrossShardByte(crossShard) + Uint32ToBytes(index % UINT32)
  }

  function EncodeAllTxKey(height: nat, index: nat, crossShard: bool): Bytes {
    ALL_TX_KEY + Uint32ToBytes(height % UINT32) + CrossShardByte(crossShard) + Uint32ToBytes(index % UINT32)
  }

  function DecodeTxKey(data: Bytes, keyLen: nat, addrLen: nat): Option<(nat, bool, nat)> {
    if |data| != keyLen + addrLen + 4 + 1 + 4 then None
    else
      var at := keyLen + addrLen;
      Some((BytesToUint32(data[at..at + 4]), data[at + 4] == 0, BytesToUint32(data[at + 5..])))
  }

  lemma Uint32RoundTrip(n: nat)
    requires n < UINT32
    ensures BytesToUint32(Uint32ToBytes(n)) == n
  {
    var a, b, c := n / 0x100, n / 0x1_0000, n / 0x100_0000;
    assert n == a * 0x100 + n % 256;
    assert a / 0x100 == b && b / 0x100 == c;
    assert a == b * 0x100 + a % 256 && b == c * 0x100 + b % 256;
  }

  /** Decoding a key gives back the height and index it was made from, modulo 2^32. */
  lemma KeyRoundTrip(addr: Addr, height: nat, index: nat, crossShard: bool)
    ensures DecodeTxKey(EncodeAddressTxKey(addr, height, index, crossShard), |ADDRESS_TX_KEY|, 20)
            == Some((height % UINT32, crossShard, index % UINT32))
    ensures DecodeTxKey(EncodeAllTxKey(height, index, crossShard), |ALL_TX_KEY|, 0)
            == Some((height % UINT32, crossShard, index % UINT32))
  {
    hide Uint32ToBytes, BytesToUint32;
    var h, x := Uint32ToBytes(height % UINT32), Uint32ToBytes(index % UINT32);
    Uint32RoundTrip(height % UINT32);
    Uint32RoundTrip(index % UINT32);
    var k := EncodeAddressTxKey(addr, height, index, crossShard);
    assert k[25..29] == h && k[30..] == x;
    var a := EncodeAllTxKey(height, index, crossShard);
    assert a[4..8] == h && a[9..] == x;
  }

  /** The height a key carries, whichever kind of key it is. */
  ghost function HeightOf(key: Bytes): Option<nat> {
    var d := if |key| == 13 then DecodeTxKey(key, 4, 0) else DecodeTxKey(key, 5, 20);
    if d.Some? then Some(d.value.0) else None
  }

  // ---------- what a block indexes ----------

  datatype TxRef = TxRef(hash: Hash, sender: Addr, to: Option<Addr>, toInBranch: bool)

  datatype DepositRef = DepositRef(hash: Hash, to: Addr, fromRoot: bool, value: nat)

  datatype MinorBody = MinorBody(prevRoot: Hash, txs: seq<TxRef>, deposits: seq<DepositRef>)

  type MinorBlock = Block<MinorBody>

  function TxKeys(tx: TxRef, height: nat, index: nat): set<Bytes> {
    {EncodeAllTxKey(height, index, false), EncodeAddressTxKey(tx.sender, height, index, false)}
    + if tx.to.Some? && tx.toInBranch then {EncodeAddressTxKey(tx.to.value, height, index, false)} else {}
  }

  /** Rewards of nothing are not indexed, and root rewards only under their address. */
  function DepositKeys(d: DepositRef, height: nat, index: nat): set<Bytes> {
    if d.fromRoot && d.value == 0 then {}
    else {EncodeAddressTxKey(d.to, height, index, true)}
         + if d.fromRoot then {} else {EncodeAllTxKey(height, index, true)}
  }

  ghost function BlockKeys(b: MinorBlock): set<Bytes> {
    (set i, k | 0 <= i < |b.body.txs| && k in TxKeys(b.body.txs[i], b.number, i) :: k)
    + (set i, k | 0 <= i < |b.body.deposits| && k in DepositKeys(b.body.deposits[i], b.number, i) :: k)
  }

  /** Every key of a block carries the block's height. */
  lemma KeysCarryHeight(b: MinorBlock, k: Bytes)
    requires k in BlockKeys(b)
    ensures HeightOf(k) == Some(b.number % UINT32)
  {
    hide Uint32ToBytes, BytesToUint32, EncodeAddressTxKey, EncodeAllTxKey, DecodeTxKey;
    if i :| 0 <= i < |b.body.txs| && k in TxKeys(b.body.txs[i], b.number, i) {
      var tx := b.body.txs[i];
      KeyHeight(tx.sender, b.number, i, false);
      if tx.to.Some? {
        KeyHeight(tx.to.value, b.number, i, false);
      }
    } else {
      var i :| 0 <= i < |b.body.deposits| && k in DepositKeys(b.body.deposits[i], b.number, i);
      KeyHeight(b.body.deposits[i].to, b.number, i, true);
    }
  }

  lemma KeyHeight(addr: Addr, height: nat, index: nat, crossShard: bool)
    ensures HeightOf(EncodeAddressTxKey(addr, height, index, crossShard)) == Some(height % UINT32)
    ensures HeightOf(EncodeAllTxKey(height, index, crossShard)) == Some(height % UINT32)
  {
    hide Uint32ToBytes, BytesToUint32, DecodeTxKey;
    KeyRoundTrip(addr, height, index, crossShard);
    assert |EncodeAddressTxKey(addr, height, index, crossShard)| == 34;
  }

  // ---------- the canonical chain's index ----------

  ghost function ChainKeys(path: seq<MinorBlock>): set<Bytes> {
    set i, k | 0 <= i < |path| && k in BlockKeys(path[i]) :: k
  }

  /** Heights count up from zero and fit in 32 bits. */
  ghost predicate ShortChain(path: seq<MinorBlock>) {
    |path| <= UINT32 && forall i :: 0 <= i < |path| ==> path[i].number == i
  }

  /** Blocks of different heights index different keys. */
  lemma KeysDisjoint(path: seq<MinorBlock>, i: nat, j: nat)
    requires ShortChain(path) && i < |path| && j < |path| && i != j
    ensures BlockKeys(path[i]) !! BlockKeys(path[j])
  {
    hide BlockKeys, HeightOf;
    forall k | k in BlockKeys(path[i]) && k in BlockKeys(path[j]) ensures false {
      KeysCarryHeight(path[i], k);
      KeysCarryHeight(path[j], k);
    }
  }

  /** Taking the keys of the upper part away leaves exactly the keys of the lower part. */
  lemma KeysOfPrefix(path: seq<MinorBlock>, c: nat)
    requires ShortChain(path) && c <= |path|
    ensures ChainKeys(path) - ChainKeys(path[c..]) == ChainKeys(path[..c])
  {
    hide BlockKeys;
    forall k ensures k in ChainKeys(path) - ChainKeys(path[c..]) <==> k in ChainKeys(path[..c]) {
      if k in ChainKeys(path[..c]) {
        var i :| 0 <= i < c && k in BlockKeys(path[..c][i]);
        assert path[..c][i] == path[i];
        if k in ChainKeys(path[c..]) {
          var j :| 0 <= j < |path[c..]| && k in BlockKeys(path[c..][j]);
          assert path[c..][j] == path[c + j];
          KeysDisjoint(path, i, c + j);
        }
      }
      if k in ChainKeys(path) - ChainKeys(path[c..]) {
        var i :| 0 <= i < |path| && k in BlockKeys(path[i]);
        if i >= c {
          assert path[c..][i - c] == path[i];
        } else {
          assert path[..c][i] == path[i];
        }
      }
    }
  }

  lemma KeysAppend(path: seq<MinorBlock>, b: MinorBlock)
    ensures ChainKeys(path + [b]) == ChainKeys(path) + BlockKeys(b)
  {
    hide BlockKeys;
    forall k ensures k in ChainKeys(path + [b]) <==> k in ChainKeys(path) + BlockKeys(b) {
      if k in ChainKeys(path) {
        var i :| 0 <= i < |path| && k in BlockKeys(path[i]);
        assert (path + [b])[i] == path[i];
      }
      if k in BlockKeys(b) {
        assert (path + [b])[|path|] == b;
      }
    }
  }

  // ---------- what the index answers ----------

  /** Indexes within a block fit in 32 bits. */
  ghost predicate ShortBlocks(path: seq<MinorBlock>) {
    forall i :: 0 <= i < |path| ==> |path[i].body.txs| <= UINT32 && |path[i].body.deposits| <= UINT32
  }

  /** The transaction is from the address, or to it on this shard. */
  predicate Involves(tx: TxRef, addr: Addr) {
    tx.sender == addr || (tx.to == Some(addr) && tx.toInBranch)
  }

  lemma AddressOfKey(a: Addr, h: nat, i: nat, x: bool)
    ensures |EncodeAddressTxKey(a, h, i, x)| == 34 && EncodeAddressTxKey(a, h, i, x)[5..25] == a && |EncodeAllTxKey(h, i, x)| == 13
  {
    hide Uint32ToBytes;
  }

  /** Different addresses and positions have different keys. */
  lemma SameAddressKey(a: Addr, h: nat, i: nat, x: bool, b: Addr, g: nat, j: nat, y: bool)
    requires h < UINT32 && i < UINT32 && g < UINT32 && j < UINT32
    ensures EncodeAddressTxKey(a, h, i, x) == EncodeAddressTxKey(b, g, j, y) <==> a == b && h == g && i == j && x == y
  {
    hide EncodeAddressTxKey, EncodeAllTxKey, DecodeTxKey, Uint32ToBytes;
    KeyRoundTrip(a, h, i, x);
    KeyRoundTrip(b, g, j, y);
    AddressOfKey(a, h, i, x);
    AddressOfKey(b, g, j, y);
    Small(h);
    Small(i);
    Small(g);
    Small(j);
  }

  lemma Small(n: nat)
    ensures n < UINT32 ==> n % UINT32 == n
  {
  }

  lemma SameAllKey(a: Addr, h: nat, i: nat, x: bool, g: nat, j: nat, y: bool)
    requires h < UINT32 && i < UINT32 && g < UINT32 && j < UINT32
    ensures EncodeAllTxKey(h, i, x) == EncodeAllTxKey(g, j, y) <==> h == g && i == j && x == y
    ensures EncodeAllTxKey(h, i, x) != EncodeAddressTxKey(a, g, j, y)
  {
    hide EncodeAddressTxKey, EncodeAllTxKey, DecodeTxKey, Uint32ToBytes;
    KeyRoundTrip(a, h, i, x);
    KeyRoundTrip(a, g, j, y);
    AddressOfKey(a, h, i, x);
    AddressOfKey(a, g, j, y);
    Small(h);
    Small(i);
    Small(g);
    Small(j);
  }

  /** A key of a chain is a key of the block at the height it carries. */
  lemma KeyAtHeight(path: seq<MinorBlock>, k: Bytes, h: nat)
    requires ShortChain(path) && h < |path| && HeightOf(k) == Some(h)
    ensures k in ChainKeys(path) <==> k in BlockKeys(path[h])
  {
    hide BlockKeys, HeightOf;
    if k in ChainKeys(path) {
      var i :| 0 <= i < |path| && k in BlockKeys(path[i]);
      KeysCarryHeight(path[i], k);
    }
  }

  lemma AddressInBlock(b: MinorBlock, addr: Addr, i: nat, x: bool)
    requires b.number < UINT32 && i < UINT32 && |b.body.txs| <= UINT32 && |b.body.deposits| <= UINT32
    ensures EncodeAddressTxKey(addr, b.number, i, x) in BlockKeys(b) <==>
            if x then i < |b.body.deposits| && b.body.deposits[i].to == addr
                      && !(b.body.deposits[i].fromRoot && b.body.deposits[i].value == 0)
            else i < |b.body.txs| && Involves(b.body.txs[i], addr)
  {
    hide EncodeAddressTxKey, EncodeAllTxKey;
    var k, h := EncodeAddressTxKey(addr, b.number, i, x), b.number;
    forall j | 0 <= j < |b.body.txs|
      ensures k in TxKeys(b.body.txs[j], h, j) <==> !x && i == j && Involves(b.body.txs[j], addr)
    {
      var tx := b.body.txs[j];
      SameAllKey(addr, h, j, false, h, i, x);
      SameAddressKey(addr, h, i, x, tx.sender, h, j, false);
      if tx.to.Some? {
        SameAddressKey(addr, h, i, x, tx.to.value, h, j, false);
      }
    }
    forall j | 0 <= j < |b.body.deposits|
      ensures k in DepositKeys(b.body.deposits[j], h, j) <==>
              x && i == j && b.body.deposits[j].to == addr && !(b.body.deposits[j].fromRoot && b.body.deposits[j].value == 0)
    {
      SameAllKey(addr, h, j, true, h, i, x);
      SameAddressKey(addr, h, i, x, b.body.deposits[j].to, h, j, true);
    }
  }

  lemma PositionInBlock(b: MinorBlock, i: nat, x: bool)
    requires b.number < UINT32 && i < UINT32 && |b.body.txs| <= UINT32 && |b.body.deposits| <= UINT32
    ensures EncodeAllTxKey(b.number, i, x) in BlockKeys(b) <==>
            if x then i < |b.body.deposits| && !b.body.deposits[i].fromRoot else i < |b.body.txs|
  {
    hide EncodeAddressTxKey, EncodeAllTxKey;
    var k, h := EncodeAllTxKey(b.number, i, x), b.number;
    forall j | 0 <= j < |b.body.txs|
      ensures k in TxKeys(b.body.txs[j], h, j) <==> !x && i == j
    {
      var tx := b.body.txs[j];
      SameAllKey(tx.sender, h, i, x, h, j, false);
      if tx.to.Some? {
        SameAllKey(tx.to.value, h, i, x, h, j, false);
      }
    }
    forall j | 0 <= j < |b.body.deposits|
      ensures k in DepositKeys(b.body.deposits[j], h, j) <==> x && i == j && !b.body.deposits[j].fromRoot
    {
      SameAllKey(b.body.deposits[j].to, h, i, x, h, j, true);
    }
    if !x && i < |b.body.txs| {
      assert k in TxKeys(b.body.txs[i], h, i);
    }
    if x && i < |b.body.deposits| {
      assert k in DepositKeys(b.body.deposits[i], h, i) <==> !b.body.deposits[i].fromRoot;
    }
  }

  /**
   * The history of an address on a chain is exactly the transactions that involve it and the deposits to it that are
   * not empty rewards; the history of all is all transactions, and all deposits but rewards.
   */
  lemma HistoryIsExact(path: seq<MinorBlock>, addr: Addr, h: nat, i: nat)
    requires ShortChain(path) && ShortBlocks(path) && h < |path| && i < UINT32
    ensures EncodeAddressTxKey(addr, h, i, false) in ChainKeys(path) <==>
            i < |path[h].body.txs| && Involves(path[h].body.txs[i], addr)
    ensures EncodeAddressTxKey(addr, h, i, true) in ChainKeys(path) <==>
            var ds := path[h].body.deposits;
            i < |ds| && ds[i].to == addr && !(ds[i].fromRoot && ds[i].value == 0)
    ensures EncodeAllTxKey(h, i, false) in ChainKeys(path) <==> i < |path[h].body.txs|
    ensures EncodeAllTxKey(h, i, true) in ChainKeys(path) <==>
            i < |path[h].body.deposits| && !path[h].body.deposits[i].fromRoot
  {
    forall x: bool
      ensures HeightOf(EncodeAddressTxKey(addr, h, i, x)) == Some(h) && HeightOf(EncodeAllTxKey(h, i, x)) == Some(h)
    {
      KeyHeight(addr, h, i, x);
    }
    hide EncodeAddressTxKey, EncodeAllTxKey, BlockKeys, ChainKeys, HeightOf, Involves;
    KeyAtHeight(path, EncodeAddressTxKey(addr, h, i, false), h);
    KeyAtHeight(path, EncodeAddressTxKey(addr, h, i, true), h);
    KeyAtHeight(path, EncodeAllTxKey(h, i, false), h);
    KeyAtHeight(path, EncodeAllTxKey(h, i, true), h);
    AddressInBlock(path[h], addr, i, false);
    AddressInBlock(path[h], addr, i, true);
    PositionInBlock(path[h], i, false);
    PositionInBlock(path[h], i, true);
  }

  // ---------- hash lookups ----------

  datatype Entry = Entry(block: Hash, index: nat)

  /** The hashes a block can be found by: its transactions, then the deposits it received. */
  function Contents(b: MinorBlock): seq<Hash> {
    seq(|b.body.txs|, i requires 0 <= i < |b.body.txs| => b.body.txs[i].hash)
    + seq(|b.body.deposits|, i requires 0 <= i < |b.body.deposits| => b.body.deposits[i].hash)
  }

  ghost function ContentSet(b: MinorBlock): set<Hash> {
    set i | 0 <= i < |Contents(b)| :: Contents(b)[i]
  }

  /** The entries of the first n hashes of a block. */
  ghost function Entries(b: MinorBlock, n: nat): map<Hash, Entry>
    requires n <= |Contents(b)|
  {
    if n == 0 then map[] else Entries(b, n - 1)[Contents(b)[n - 1] := Entry(b.hash, n - 1)]
  }

  ghost function BlockEntries(b: MinorBlock): map<Hash, Entry> {
    Entries(b, |Contents(b)|)
  }

  lemma {:induction false} EntriesKeys(b: MinorBlock, n: nat)
    requires n <= |Contents(b)|
    ensures Entries(b, n).Keys == set i | 0 <= i < n :: Contents(b)[i]
  {
    hide Contents;
    if n > 0 {
      EntriesKeys(b, n - 1);
    }
  }

  ghost function ChainLookup(path: seq<MinorBlock>): map<Hash, Entry> {
    if path == [] then map[] else ChainLookup(path[..|path| - 1]) + BlockEntries(path[|path| - 1])
  }

  ghost function ChainContents(path: seq<MinorBlock>): set<Hash> {
    set i, h | 0 <= i < |path| && h in ContentSet(path[i]) :: h
  }

  /** No hash occurs in two blocks of the chain, nor twice in one. */
  ghost predicate UniqueContents(path: seq<MinorBlock>) {
    && (forall i, j :: 0 <= i < j < |path| ==> ContentSet(path[i]) !! ContentSet(path[j]))
    && (forall i, x, y :: 0 <= i < |path| && 0 <= x < y < |Contents(path[i])| ==>
          Contents(path[i])[x] != Contents(path[i])[y])
  }

  lemma {:induction false} LookupKeys(path: seq<MinorBlock>)
    ensures ChainLookup(path).Keys == ChainContents(path)
  {
    hide Contents, Entries, ContentSet;
    if path != [] {
      var n := |path| - 1;
      LookupKeys(path[..n]);
      BlockEntriesKeys(path[n]);
      assert forall i :: 0 <= i < n ==> path[..n][i] == path[i];
    }
  }

  lemma BlockEntriesKeys(b: MinorBlock)
    ensures BlockEntries(b).Keys == ContentSet(b)
  {
    EntriesKeys(b, |Contents(b)|);
  }

  /** The last block of a chain without repeats shares no hash with the blocks below it. */
  lemma UniqueBelow(path: seq<MinorBlock>)
    requires UniqueContents(path) && path != []
    ensures UniqueContents(path[..|path| - 1])
    ensures ChainContents(path[..|path| - 1]) !! ContentSet(path[|path| - 1])
  {
    hide Contents, ContentSet;
    var lower := path[..|path| - 1];
    assert forall i :: 0 <= i < |lower| ==> lower[i] == path[i];
  }

  /** Adding entries and removing them again, with others. */
  lemma AddThenRemove<K, V>(m: map<K, V>, added: map<K, V>, rest: set<K>)
    requires m.Keys !! added.Keys
    ensures (m + added) - (rest + added.Keys) == m - rest
  {
  }

  /** Dropping the hashes of the upper part leaves exactly the lookups of the lower part. */
  lemma {:induction false} LookupOfPrefix(path: seq<MinorBlock>, c: nat)
    requires UniqueContents(path) && c <= |path|
    ensures ChainLookup(path) - ChainContents(path[c..]) == ChainLookup(path[..c])
    decreases |path|
  {
    hide ContentSet, UniqueContents, ChainContents, ChainLookup, BlockEntries;
    if c == |path| {
      assert path[..c] == path && path[c..] == [];
      NoContents();
      assert ChainLookup(path) - {} == ChainLookup(path);
    } else {
      var n := |path| - 1;
      var lower, last := path[..n], path[n];
      UniqueBelow(path);
      LookupOfPrefix(lower, c);
      LookupKeys(lower);
      BlockEntriesKeys(last);
      LastLookup(path);
      assert lower[..c] == path[..c] && path[c..] == lower[c..] + [last];
      ContentsAppend(lower[c..], last);
      var added, rest := BlockEntries(last), ChainContents(lower[c..]);
      assert ChainContents(path[c..]) == rest + added.Keys;
      AddThenRemove(ChainLookup(lower), added, rest);
      assert ChainLookup(path) - (rest + added.Keys) == ChainLookup(lower) - rest;
    }
  }

  lemma LastLookup(path: seq<MinorBlock>)
    requires path != []
    ensures ChainLookup(path) == ChainLookup(path[..|path| - 1]) + BlockEntries(path[|path| - 1])
  {
  }

  lemma NoContents()
    ensures ChainContents([]) == {}
  {
  }

  lemma ContentsAppend(path: seq<MinorBlock>, b: MinorBlock)
    ensures ChainContents(path + [b]) == ChainContents(path) + ContentSet(b)
  {
    hide ContentSet;
    assert forall i :: 0 <= i < |path| ==> (path + [b])[i] == path[i];
    assert (path + [b])[|path|] == b;
    forall h ensures h in ChainContents(path + [b]) <==> h in ChainContents(path) + ContentSet(b) {
      if h in ChainContents(path) {
        var i :| 0 <= i < |path| && h in ContentSet(path[i]);
        assert h in ContentSet((path + [b])[i]);
      }
    }
  }

  lemma LookupAppend(path: seq<MinorBlock>, b: MinorBlock)
    ensures ChainLookup(path + [b]) == ChainLookup(path) + BlockEntries(b)
  {
    assert (path + [b])[..|path|] == path;
  }

  /** On a chain without repeated hashes, every hash of a canonical block is found at that block. */
  lemma {:induction false} LookupFinds(path: seq<MinorBlock>, i: nat, x: nat)
    requires UniqueContents(path) && i < |path| && x < |Contents(path[i])|
    ensures var h := Contents(path[i])[x];
            h in ChainLookup(path) && ChainLookup(path)[h] == Entry(path[i].hash, x)
    decreases |path|
  {
    hide Contents;
    var n := |path| - 1;
    var h := Contents(path[i])[x];
    assert h in ContentSet(path[i]);
    BlockEntriesKeys(path[n]);
    if i < n {
      assert forall j :: 0 <= j < n ==> path[..n][j] == path[j];
      LookupFinds(path[..n], i, x);
      assert ContentSet(path[i]) !! ContentSet(path[n]);
    } else {
      EntryFound(path[n], |Contents(path[n])|, x);
    }
  }

  lemma {:induction false} EntryFound(b: MinorBlock, n: nat, x: nat)
    requires x < n <= |Contents(b)|
    requires forall y :: x < y < |Contents(b)| ==> Contents(b)[x] != Contents(b)[y]
    ensures Contents(b)[x] in Entries(b, n) && Entries(b, n)[Contents(b)[x]] == Entry(b.hash, x)
  {
    hide Contents;
    if x < n - 1 {
      EntryFound(b, n - 1, x);
    }
  }
}
