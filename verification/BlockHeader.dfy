/** Block header hashing (crates/bleep-core/src/block.rs) and the header a finality certificate
    carries (crates/bleep-consensus/src/finality.rs). Strings are their UTF-8 bytes. */
module BlockHeader {
  import opened Encoding

  datatype ConsensusMode = PosNormal | PbftFastFinality | EmergencyPow

  /** The semantic fields, shared by blocks and finality headers. */
  datatype Fields = Fields(height: nat, timestamp: nat, chainId: Bytes, previousHash: Bytes, merkleRoot: Bytes,
                           epochId: nat, mode: ConsensusMode, protocolVersion: nat, shardRegistryRoot: Bytes,
                           shardId: nat, shardStateRoot: Bytes, sigCommitmentRoot: Bytes)

  datatype Block = Block(fields: Fields, zkProof: Bytes)
  datatype FinalityHeader = FinalityHeader(fields: Fields, blockHash: Bytes)

  const DIGEST_LEN: nat := 32
  const VRF_OUTPUT_LEN: nat := 32
  const DOMAIN_V2: Bytes := Ascii("BLEEP_BLOCK_HEADER_V2")
  const DOMAIN_V3: Bytes := Ascii("BLEEP_BLOCK_HEADER_V3")
  const VRF_MAGIC: Bytes := Ascii("BLEEP_VRF_STARK_V1")

  // ---------------------------------------------------------------------------
  // Fixed-width records
  // ---------------------------------------------------------------------------

  function Concat(parts: seq<Bytes>): Bytes {
    if parts == [] then [] else parts[0] + Concat(parts[1..])
  }

  /** Records whose fields have the same widths are equal when their bytes are. */
  lemma {:induction false} ConcatInjective(a: seq<Bytes>, b: seq<Bytes>)
    requires |a| == |b| && (forall i | 0 <= i < |a| :: |a[i]| == |b[i]|) && Concat(a) == Concat(b)
    ensures a == b
  {
    if a != [] {
      SplitEqual(a[0], b[0], Concat(a[1..]), Concat(b[1..]));
      ConcatInjective(a[1..], b[1..]);
      assert a == [a[0]] + a[1..] && b == [b[0]] + b[1..];
    }
  }

  // ---------------------------------------------------------------------------
  // The header preimage
  // ---------------------------------------------------------------------------

  predicate VrfProtocol(f: Fields) {
    f.protocolVersion >= 5
  }

  /** The VRF output inside a proof envelope, or zeros when there is none. */
  function VrfOutput(zkProof: Bytes): (output: Bytes)
    ensures |output| == VRF_OUTPUT_LEN
  {
    if VRF_MAGIC <= zkProof && |zkProof| - |VRF_MAGIC| >= VRF_OUTPUT_LEN
    then zkProof[|VRF_MAGIC|..|VRF_MAGIC| + VRF_OUTPUT_LEN]
    else Repeat(0, VRF_OUTPUT_LEN)
  }

  function ModeByte(mode: ConsensusMode): Byte {
    match mode case PosNormal => 0 case PbftFastFinality => 1 case EmergencyPow => 2
  }

  function Parts(hash: Bytes -> Bytes, f: Fields): seq<Bytes> {
    [if VrfProtocol(f) then DOMAIN_V3 else DOMAIN_V2,
     LittleEndian(f.height, 8), LittleEndian(f.timestamp, 8),
     hash(f.chainId), hash(f.previousHash), hash(f.merkleRoot),
     LittleEndian(f.epochId, 8), [ModeByte(f.mode)], LittleEndian(f.protocolVersion, 4),
     hash(f.shardRegistryRoot), LittleEndian(f.shardId, 8), hash(f.shardStateRoot), f.sigCommitmentRoot]
  }

  function HashPreimage(hash: Bytes -> Bytes, f: Fields, zkProof: Bytes): Bytes {
    Concat(Parts(hash, f)) + if VrfProtocol(f) then VrfOutput(zkProof) else []
  }

  /** `canonical_hash`. */
  function HeaderHash(hash: Bytes -> Bytes, f: Fields, zkProof: Bytes): Bytes {
    Hex(hash(HashPreimage(hash, f, zkProof)))
  }

  // ---------------------------------------------------------------------------
  // Finality headers
  // ---------------------------------------------------------------------------

  function FromBlock(hash: Bytes -> Bytes, b: Block): FinalityHeader {
    FinalityHeader(b.fields, HeaderHash(hash, b.fields, b.zkProof))
  }

  /** The finality header keeps no proof bytes, so its hash is recomputed without any. */
  predicate VerifyHash(hash: Bytes -> Bytes, h: FinalityHeader) {
    h.blockHash == HeaderHash(hash, h.fields, [])
  }

  /** Not every block can be finalized: a header taken from a block passes its own check exactly
      when the protocol predates VRF outputs or the block's VRF output is all zeros. */
  lemma FromBlockVerifies(hash: Bytes -> Bytes, b: Block)
    requires CollisionFreeOn(hash, {HashPreimage(hash, b.fields, b.zkProof), HashPreimage(hash, b.fields, [])})
    ensures VerifyHash(hash, FromBlock(hash, b)) <==>
              !VrfProtocol(b.fields) || VrfOutput(b.zkProof) == Repeat(0, VRF_OUTPUT_LEN)
  {
    if VrfProtocol(b.fields) && VerifyHash(hash, FromBlock(hash, b)) {
      var common := Concat(Parts(hash, b.fields));
      HexInjective(hash(HashPreimage(hash, b.fields, b.zkProof)), hash(HashPreimage(hash, b.fields, [])));
      SplitEqual(common, common, VrfOutput(b.zkProof), VrfOutput([]));
    }
  }

  /** A block of the current protocol for which no certificate can be created. */
  lemma RealVrfOutputIsRejected(hash: Bytes -> Bytes, f: Fields, output: Bytes)
    requires VrfProtocol(f) && |output| == VRF_OUTPUT_LEN && output[0] != 0
    requires CollisionFreeOn(hash, {HashPreimage(hash, f, VRF_MAGIC + output), HashPreimage(hash, f, [])})
    ensures !VerifyHash(hash, FromBlock(hash, Block(f, VRF_MAGIC + output)))
  {
    var zkProof := VRF_MAGIC + output;
    assert zkProof[|VRF_MAGIC|..|VRF_MAGIC| + VRF_OUTPUT_LEN] == output;
    FromBlockVerifies(hash, Block(f, zkProof));
    assert Repeat(0, VRF_OUTPUT_LEN)[0] == 0;
  }

  // ---------------------------------------------------------------------------
  // What the bytes of a header determine
  // ---------------------------------------------------------------------------

  function Texts(f: Fields): set<Bytes> {
    {f.chainId, f.previousHash, f.merkleRoot, f.shardRegistryRoot, f.shardStateRoot}
  }

  /** Machine integers, and a digest as wide as a digest. */
  predicate Representable(f: Fields) {
    && f.height < U64 && f.timestamp < U64 && f.epochId < U64 && f.shardId < U64
    && f.protocolVersion < Pow256(4) && |f.sigCommitmentRoot| == DIGEST_LEN
  }

  ghost predicate Digests(hash: Bytes -> Bytes, texts: set<Bytes>) {
    CollisionFreeOn(hash, texts) && forall x :: x in texts ==> |hash(x)| == DIGEST_LEN
  }

  lemma PartsInjective(hash: Bytes -> Bytes, f: Fields, g: Fields)
    requires Representable(f) && Representable(g) && Digests(hash, Texts(f) + Texts(g))
    requires Parts(hash, f) == Parts(hash, g)
    ensures f == g
  {
    var p, q := Parts(hash, f), Parts(hash, g);
    WordSizes();
    assert p[1] == q[1] && p[2] == q[2] && p[6] == q[6] && p[8] == q[8] && p[10] == q[10];
    LittleEndianInjective(f.height, g.height, 8);
    LittleEndianInjective(f.timestamp, g.timestamp, 8);
    LittleEndianInjective(f.epochId, g.epochId, 8);
    LittleEndianInjective(f.protocolVersion, g.protocolVersion, 4);
    LittleEndianInjective(f.shardId, g.shardId, 8);
    assert p[3] == q[3] && p[4] == q[4] && p[5] == q[5] && p[9] == q[9] && p[11] == q[11] && p[12] == q[12];
    assert p[7] == q[7];
    assert p[7][0] == ModeByte(f.mode) && q[7][0] == ModeByte(g.mode);
  }

  /** The bytes validators sign for a header: its preimage without proof bytes, then the digest of
      the block hash. */
  function CanonicalBytes(hash: Bytes -> Bytes, h: FinalityHeader): Bytes {
    HashPreimage(hash, h.fields, []) + hash(h.blockHash)
  }

  function HeaderTexts(h: FinalityHeader): set<Bytes> {
    Texts(h.fields) + {h.blockHash}
  }

  /** Every field of a header, and its block hash, can be recovered from its canonical bytes. */
  lemma CanonicalBytesInjective(hash: Bytes -> Bytes, h: FinalityHeader, k: FinalityHeader)
    requires Representable(h.fields) && Representable(k.fields)
    requires Digests(hash, HeaderTexts(h) + HeaderTexts(k))
    requires CanonicalBytes(hash, h) == CanonicalBytes(hash, k)
    ensures h == k
  {
    hide Parts, Concat, VrfOutput, Repeat;
    var p, q := Parts(hash, h.fields), Parts(hash, k.fields);
    PartWidths(hash, h.fields);
    PartWidths(hash, k.fields);
    ConcatLength(p, q);
    CanonicalSplit(hash, h);
    CanonicalSplit(hash, k);
    SplitEqual(Concat(p), Concat(q), Tail(hash, h), Tail(hash, k));
    ConcatInjective(p, q);
    PartsInjective(hash, h.fields, k.fields);
    SameTail(hash, h, k);
  }

  /** What follows the fixed-width fields in the canonical bytes. */
  function Tail(hash: Bytes -> Bytes, h: FinalityHeader): Bytes {
    (if VrfProtocol(h.fields) then VrfOutput([]) else []) + hash(h.blockHash)
  }

  lemma CanonicalSplit(hash: Bytes -> Bytes, h: FinalityHeader)
    ensures CanonicalBytes(hash, h) == Concat(Parts(hash, h.fields)) + Tail(hash, h)
  {
  }

  lemma SameTail(hash: Bytes -> Bytes, h: FinalityHeader, k: FinalityHeader)
    requires h.fields == k.fields && Tail(hash, h) == Tail(hash, k)
    requires CollisionFreeOn(hash, HeaderTexts(h) + HeaderTexts(k))
    ensures h == k
  {
    var vrf := if VrfProtocol(h.fields) then VrfOutput([]) else [];
    SplitEqual(vrf, vrf, hash(h.blockHash), hash(k.blockHash));
  }

  function Widths(): seq<nat> {
    [21, 8, 8, 32, 32, 32, 8, 1, 4, 32, 8, 32, 32]
  }

  lemma PartWidths(hash: Bytes -> Bytes, f: Fields)
    requires |f.sigCommitmentRoot| == DIGEST_LEN && forall x :: x in Texts(f) ==> |hash(x)| == DIGEST_LEN
    ensures |Parts(hash, f)| == 13 && forall i | 0 <= i < 13 :: |Parts(hash, f)[i]| == Widths()[i]
  {
  }

  lemma {:induction false} ConcatLength(a: seq<Bytes>, b: seq<Bytes>)
    requires |a| == |b| && forall i | 0 <= i < |a| :: |a[i]| == |b[i]|
    ensures |Concat(a)| == |Concat(b)|
  {
    if a != [] { ConcatLength(a[1..], b[1..]); }
  }
}
