/** Epoch arithmetic (crates/bleep-consensus/src/epoch.rs) and the epoch length that the block
    producer puts into its proof inputs (crates/bleep-consensus/src/block_producer.rs). All 64-bit
    operations wrap around, as in a release build. */
module Epoch {
  import opened Arithmetic
  import opened Encoding

  datatype Mode = PoS | PBFT | PoW

  datatype Config = Config(blocksPerEpoch: nat, genesis: nat, version: nat)

  datatype EpochState = EpochState(epoch: nat, mode: Mode, start: nat, end: nat)

  predicate Word(x: int) {
    0 <= x < U64
  }

  predicate Valid(c: Config) {
    Word(c.blocksPerEpoch) && Word(c.genesis) && c.blocksPerEpoch > 0
  }

  function NewConfig(blocksPerEpoch: nat, genesis: nat, version: nat): (r: Result<Config, string>)
    requires Word(blocksPerEpoch) && Word(genesis)
    ensures r.Ok? <==> blocksPerEpoch > 0
    ensures r.Ok? ==> Valid(r.value) && r.value.blocksPerEpoch == blocksPerEpoch && r.value.genesis == genesis
    ensures r.Ok? ==> r.value.version == version
  {
    if blocksPerEpoch == 0 then Err("blocks_per_epoch must be > 0")
    else Ok(Config(blocksPerEpoch, genesis, version))
  }

  function EpochId(c: Config, height: nat): nat
    requires Valid(c)
  {
    if height < c.genesis then 0 else (height - c.genesis) / c.blocksPerEpoch
  }

  function StartHeight(c: Config, epoch: nat): nat {
    (c.genesis + epoch * c.blocksPerEpoch % U64) % U64
  }

  function EndHeight(c: Config, epoch: nat): nat {
    (StartHeight(c, (epoch + 1) % U64) - 1) % U64
  }

  /** `height_range`: a half-open pair. */
  function HeightRange(c: Config, epoch: nat): (nat, nat) {
    var start := StartHeight(c, epoch);
    (start, (start + c.blocksPerEpoch) % U64)
  }

  predicate InRange(r: (nat, nat), height: nat) {
    r.0 <= height < r.1
  }

  predicate ContainsHeight(s: EpochState, height: nat) {
    s.start <= height <= s.end
  }

  function Validate(s: EpochState, c: Config): Result<(), string>
    requires Valid(c)
  {
    if s.epoch != EpochId(c, s.start) then Err("Epoch ID mismatch")
    else if ((s.end - s.start) % U64 + 1) % U64 != c.blocksPerEpoch then Err("Epoch height range mismatch")
    else Ok(())
  }

  function Build(c: Config, height: nat, mode: Mode): Result<EpochState, string>
    requires Valid(c)
  {
    var epoch := EpochId(c, height);
    var s := EpochState(epoch, mode, StartHeight(c, epoch), EndHeight(c, epoch));
    match Validate(s, c)
    case Err(e) => Err(e)
    case Ok(_) => Ok(s)
  }

  // ---------------------------------------------------------------------------
  // Epochs tile the heights
  // ---------------------------------------------------------------------------

  /** First height of an epoch over the unbounded integers. */
  function TrueStart(c: Config, epoch: nat): (s: nat)
    ensures s >= c.genesis
  {
    AtLeastOnce(c.blocksPerEpoch + 1, epoch);
    Distribute(c.blocksPerEpoch, epoch);
    c.genesis + epoch * c.blocksPerEpoch
  }

  lemma Distribute(b: nat, e: nat)
    ensures e * b >= 0 && (e + 1) * b == e * b + b
  {
  }

  /** Every height from genesis on lies in exactly one epoch, the one `epoch_id` names. */
  lemma EpochsTile(c: Config, height: nat, epoch: nat)
    requires Valid(c) && height >= c.genesis
    ensures EpochId(c, height) == epoch <==> TrueStart(c, epoch) <= height < TrueStart(c, epoch + 1)
  {
    Distribute(c.blocksPerEpoch, epoch);
    var d := height - c.genesis;
    var e := EpochId(c, height);
    Distribute(c.blocksPerEpoch, e);
    assert d == c.blocksPerEpoch * e + d % c.blocksPerEpoch;
    if TrueStart(c, epoch) <= height < TrueStart(c, epoch + 1) {
      QuotientUnique(d, c.blocksPerEpoch, epoch, d - epoch * c.blocksPerEpoch);
    }
  }

  lemma WrappedStart(c: Config, epoch: nat)
    ensures StartHeight(c, epoch) == TrueStart(c, epoch) % U64
  {
  }

  lemma NextStart(c: Config, epoch: nat)
    ensures TrueStart(c, epoch + 1) == TrueStart(c, epoch) + c.blocksPerEpoch
  {
  }

  /** The epoch counter wrapping around does not show in the start height. */
  lemma WrappedEpoch(c: Config, epoch: nat)
    requires epoch <= U64
    ensures StartHeight(c, epoch % U64) == TrueStart(c, epoch) % U64
  {
    if epoch < U64 {
      assert epoch % U64 == epoch;
      WrappedStart(c, epoch);
    } else {
      assert StartHeight(c, 0) == c.genesis % U64;
      FullTurns(c.genesis, c.blocksPerEpoch);
    }
  }

  lemma WrappedEnd(c: Config, epoch: nat)
    requires Word(epoch)
    ensures EndHeight(c, epoch) == (TrueStart(c, epoch + 1) - 1) % U64
  {
    hide TrueStart, StartHeight;
    WrappedEpoch(c, epoch + 1);
    SubWrapped(TrueStart(c, epoch + 1), 1);
  }

  lemma SubWrapped(x: int, y: int)
    ensures (x % U64 - y) % U64 == (x - y) % U64
  {
  }

  lemma FullTurns(g: nat, b: nat)
    ensures (g + U64 * b) % U64 == g % U64
  {
  }

  /** For an epoch that has a height at all, `is_in_epoch` agrees with `height_range` on every height
      from genesis on exactly when the end of the range fits in 64 bits. */
  lemma RangeAgreesIff(c: Config, epoch: nat)
    requires Valid(c) && Word(epoch) && TrueStart(c, epoch) < U64
    ensures (forall h: nat | c.genesis <= h && Word(h) :: EpochId(c, h) == epoch <==> InRange(HeightRange(c, epoch), h))
            <==> TrueStart(c, epoch + 1) < U64
  {
    hide EpochId, StartHeight, TrueStart;
    WrappedStart(c, epoch);
    NextStart(c, epoch);
    EndWraps(TrueStart(c, epoch), c.blocksPerEpoch);
    forall h: nat | c.genesis <= h && Word(h)
      ensures EpochId(c, h) == epoch <==> TrueStart(c, epoch) <= h < TrueStart(c, epoch + 1)
    {
      EpochsTile(c, h, epoch);
    }
    var first := TrueStart(c, epoch);
    assert Word(first) && first >= c.genesis;
    assert EpochId(c, first) == epoch;
  }

  lemma EndWraps(start: nat, length: nat)
    requires Word(start) && Word(length) && length > 0
    ensures start % U64 == start
    ensures (start + length) % U64 == if start + length < U64 then start + length else start + length - U64
  {
  }

  /** Below genesis the answer is epoch 0, whose range does not hold the height. */
  lemma BelowGenesis(c: Config, height: nat, epoch: nat)
    requires Valid(c) && height < c.genesis
    ensures EpochId(c, height) == epoch <==> epoch == 0
    ensures !InRange(HeightRange(c, 0), height)
  {
  }

  // ---------------------------------------------------------------------------
  // Building epoch states
  // ---------------------------------------------------------------------------

  lemma EpochIdIsWord(c: Config, height: nat)
    requires Valid(c) && Word(height)
    ensures Word(EpochId(c, height))
    ensures height >= c.genesis ==> TrueStart(c, EpochId(c, height)) <= height
    ensures TrueStart(c, EpochId(c, height)) < U64
  {
  }

  /** Building succeeds for every height, and all heights of one epoch get the same state. It holds
      its own height exactly when that is not below genesis and the epoch ends within 64 bits; then
      its bounds are those of the epoch. */
  lemma BuildExactly(c: Config, height: nat, mode: Mode)
    requires Valid(c) && Word(height)
    ensures var r := Build(c, height, mode); var e := EpochId(c, height);
            && r.Ok? && r.value.epoch == e && r.value.mode == mode
            && r.value.start == TrueStart(c, e)
            && (TrueStart(c, e + 1) <= U64 ==> r.value.end == TrueStart(c, e + 1) - 1)
            && (ContainsHeight(r.value, height) <==> height >= c.genesis && TrueStart(c, e + 1) <= U64)
  {
    hide EpochId, StartHeight, EndHeight, TrueStart;
    var e := EpochId(c, height);
    EpochIdIsWord(c, height);
    WrappedStart(c, e);
    WrappedEnd(c, e);
    NextStart(c, e);
    EpochsTile(c, TrueStart(c, e), e);
    if height >= c.genesis { EpochsTile(c, height, e); }
    LengthWraps(TrueStart(c, e), c.blocksPerEpoch);
  }

  lemma LengthWraps(start: nat, length: nat)
    requires Word(start) && Word(length) && length > 0
    ensures (((start + length - 1) % U64 - start) % U64 + 1) % U64 == length
    ensures start % U64 == start
    ensures start + length <= U64 ==> (start + length - 1) % U64 == start + length - 1
    ensures start + length > U64 ==> (start + length - 1) % U64 < start
  {
  }

  /** A state with any fields passes validation exactly when its epoch is that of its first height and it
      counts as many heights as an epoch has, on a circle of 64-bit heights. */
  lemma ValidateIff(s: EpochState, c: Config)
    requires Valid(c) && Word(s.start) && Word(s.end)
    ensures Validate(s, c).Ok? <==>
              && s.epoch == (if s.start < c.genesis then 0 else (s.start - c.genesis) / c.blocksPerEpoch)
              && c.blocksPerEpoch
                 == (if s.start <= s.end then s.end - s.start + 1 else U64 - (s.start - s.end) + 1) % U64
  {
    var n := if s.start <= s.end then s.end - s.start else U64 - (s.start - s.end);
    assert (s.end - s.start) % U64 == n;
  }

  /** Two heights in one epoch get the same state. */
  lemma BuildPerEpoch(c: Config, h: nat, h': nat, mode: Mode)
    requires Valid(c) && Word(h) && Word(h')
    requires h >= c.genesis && h' >= c.genesis
    ensures Build(c, h, mode) == Build(c, h', mode) <==> EpochId(c, h) == EpochId(c, h')
  {
    BuildExactly(c, h, mode);
    BuildExactly(c, h', mode);
  }

  // ---------------------------------------------------------------------------
  // The epoch length in the proof inputs
  // ---------------------------------------------------------------------------

  const BLOCKS_PER_EPOCH := 1000

  function Divisor(index: nat, epoch: nat): nat {
    if epoch > 0 && index > 0 then index / (if epoch >= 1 then epoch else 1) else 100
  }

  /** The length derived from the height recovers the epoch, except in the middle of epoch 0. */
  lemma DivisorRecoversEpoch(height: nat)
    ensures var epoch := height / BLOCKS_PER_EPOCH;
            var divisor := Divisor(height, epoch);
            divisor > 0 && (height / divisor == epoch <==> height < 100 || height >= 1000)
  {
    var e := height / BLOCKS_PER_EPOCH;
    if e > 0 {
      var d := height / e;
      var r := height % e;
      assert height == e * d + r;
      LongEnough(height, e, d, r);
      assert height == d * e + r;
      QuotientUnique(height, d, e, r);
    }
  }

  /** A height of epoch `e` shared out over `e` leaves at least 1000 each, so the remainder is small. */
  lemma LongEnough(height: nat, e: nat, d: nat, r: nat)
    requires e > 0 && 1000 * e <= height < 1000 * e + 1000 && height == e * d + r && r < e
    ensures r < d
  {
    assert e * (d + 1 - 1000) == e * d + e - 1000 * e;
    AtLeastOnce(e, d + 1 - 1000);
    assert e * (d - 1000) == e * d - 1000 * e;
    AtLeastOnce(e, d - 1000);
  }
}
