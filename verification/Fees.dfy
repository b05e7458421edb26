/** Saturating 256-bit arithmetic and the L1 block info the OP fees are computed from. */
module L1Block {
  import opened Bytes
  import FastLz
  import FastLzParse

  function SatAdd(a: u256, b: u256): u256 {
    if a + b > U256_MAX then U256_MAX else a + b
  }

  lemma MulNonNegative(a: nat, b: nat)
    ensures a * b >= 0
  {
  }

  function SatMul(a: u256, b: u256): u256 {
    MulNonNegative(a, b);
    if a * b > U256_MAX then U256_MAX else a * b
  }

  function SatSub(a: nat, b: nat): nat {
    if a < b then 0 else a - b
  }

  // ----- Hardforks -----

  datatype OpSpec =
    Bedrock | Regolith | Canyon | Ecotone | Fjord | Granite | Holocene | Isthmus | Jovian | Karst | Lagoon

  function Ordinal(s: OpSpec): nat {
    match s
    case Bedrock => 100 case Regolith => 101 case Canyon => 102 case Ecotone => 103 case Fjord => 104
    case Granite => 105 case Holocene => 106 case Isthmus => 107 case Jovian => 108 case Karst => 109 case Lagoon => 110
  }

  /** `spec.is_enabled_in(other)`. */
  predicate EnabledIn(spec: OpSpec, other: OpSpec) {
    Ordinal(other) <= Ordinal(spec)
  }

  const FORKS: seq<OpSpec> :=
    [Bedrock, Regolith, Canyon, Ecotone, Fjord, Granite, Holocene, Isthmus, Jovian, Karst, Lagoon]

  lemma ForkAt(i: nat)
    requires i < |FORKS|
    ensures Ordinal(FORKS[i]) == 100 + i
  {
  }

  /** A fork is enabled exactly in itself and the forks after it. */
  lemma ForksInOrder(i: nat, j: nat)
    requires i < |FORKS| && j < |FORKS|
    ensures EnabledIn(FORKS[i], FORKS[j]) <==> j <= i
  {
    ForkAt(i);
    ForkAt(j);
  }

  // ----- L1 block info -----

  /** `L1BlockInfo` without its cached cost. */
  datatype Info = Info(
    l2Block: Option<nat>,
    l1BaseFee: u256,
    l1FeeOverhead: Option<u256>,
    l1BaseFeeScalar: u256,
    l1BlobBaseFee: Option<u256>,
    l1BlobBaseFeeScalar: Option<u256>,
    operatorFeeScalar: Option<u256>,
    operatorFeeConstant: Option<u256>,
    daFootprintGasScalar: Option<nat>,
    emptyEcotoneScalars: bool)

  /** The L1Block contract's storage. */
  type Storage = nat -> u256

  /** A field of a 32-byte big-endian word: the part worth less than `size` above the bytes worth less than `low`. */
  function Field(word: u256, low: nat, size: nat): (field: nat)
    requires low > 0 && size > 0
    ensures field < size
  {
    word / low % size
  }

  const TWO_16: nat := 0x1_0000
  const TWO_32: nat := 0x1_0000_0000
  const TWO_64: nat := 0x1_0000_0000_0000_0000
  const TWO_96: nat := 0x1_0000_0000_0000_0000_0000_0000

  function Or0(x: Option<u256>): u256 {
    if x.None? then 0 else x.value
  }

  /** `try_fetch`: slots 1, 5, 6 before Ecotone; 1, 3, 7 from Ecotone on (5 while the scalars are
      unset), 8 from Isthmus on. */
  function TryFetch(storage: Storage, l2Block: nat, spec: OpSpec): (info: Info)
    ensures info.l2Block == Some(l2Block)
    ensures EnabledIn(spec, Isthmus) ==>
      info.operatorFeeScalar.Some? && info.operatorFeeScalar.value <= U32_MAX
      && info.operatorFeeConstant.Some? && info.operatorFeeConstant.value <= U64_MAX
  {
    if !EnabledIn(spec, Ecotone) then
      Info(Some(l2Block), storage(1), Some(storage(5)), storage(6), None, None, None, None, None, false)
    else
      var scalars := storage(3);
      var base, blob := Field(scalars, TWO_96, TWO_32), Field(scalars, TWO_64, TWO_32);
      var empty := blob == 0 && Field(scalars, TWO_64, TWO_64) == 0;
      var overhead := if empty then Some(storage(5)) else None;
      var operator := storage(8);
      var isthmus, jovian := EnabledIn(spec, Isthmus), EnabledIn(spec, Jovian);
      Info(Some(l2Block), storage(1), overhead, base, Some(storage(7)), Some(blob),
           if isthmus then Some(Field(operator, TWO_64, TWO_32)) else None,
           if isthmus then Some(Field(operator, 1, TWO_64)) else None,
           if jovian then Some(Field(operator, TWO_96, TWO_16)) else None,
           empty)
  }

  /** The Ecotone scalars count as unset exactly when both are zero. */
  lemma EmptyScalars(word: u256)
    ensures Field(word, TWO_64, TWO_64) == 0 <==> Field(word, TWO_96, TWO_32) == 0 && Field(word, TWO_64, TWO_32) == 0
  {
    var w := word / TWO_64;
    assert word / TWO_96 == w / TWO_32;
    assert w % TWO_64 == w / TWO_32 % TWO_32 * TWO_32 + w % TWO_32;
  }

  // ----- Operator fee -----

  /** A deposit (type byte 0x7E) or an empty envelope costs nothing. */
  predicate Chargeable(envelope: seq<byte>) {
    envelope != [] && envelope[0] != 0x7E
  }

  /** The Isthmus fields are there when they are read. */
  predicate HasOperatorFee(info: Info) {
    && info.operatorFeeScalar.Some? && info.operatorFeeScalar.value <= U32_MAX
    && info.operatorFeeConstant.Some? && info.operatorFeeConstant.value <= U64_MAX
  }

  function OperatorFee(info: Info, gas: u64, spec: OpSpec): u256
    requires HasOperatorFee(info)
  {
    var scaled := SatMul(gas, info.operatorFeeScalar.value);
    var product := if EnabledIn(spec, Jovian) then SatMul(scaled, 100) else scaled / 1_000_000;
    SatAdd(product, info.operatorFeeConstant.value)
  }

  function OperatorFeeCharge(info: Info, envelope: seq<byte>, gas: u64, spec: OpSpec): u256
    requires EnabledIn(spec, Isthmus) ==> HasOperatorFee(info)
  {
    if !EnabledIn(spec, Isthmus) then 0
    else if !Chargeable(envelope) then 0
    else OperatorFee(info, gas, spec)
  }

  /** Transaction-level gas: `used` is limit less remaining less refund. */
  datatype Gas = Gas(limit: u64, remaining: u64, reservoir: u64, refunded: nat)

  function Used(gas: Gas): u64 {
    SatSub(SatSub(gas.limit, gas.remaining), gas.refunded)
  }

  function OperatorFeeRefund(info: Info, gas: Gas, spec: OpSpec): nat
    requires EnabledIn(spec, Isthmus) ==> HasOperatorFee(info)
  {
    if !EnabledIn(spec, Isthmus) then 0
    else
      var used := SatSub(gas.limit, gas.remaining + gas.reservoir + gas.refunded);
      SatSub(OperatorFee(info, gas.limit, spec), OperatorFee(info, used, spec))
  }

  // ----- L1 cost -----

  /** One token per zero byte and four per other byte. */
  function Tokens(input: seq<byte>): nat {
    if input == [] then 0
    else Tokens(input[..|input| - 1]) + if input[|input| - 1] == 0 then 1 else 4
  }

  function SizeFjord(input: seq<byte>): u256 {
    FastLz.SizeFromLength(FastLzParse.Cost(FastLz.Start(input)))
  }

  function DataGas(input: seq<byte>, spec: OpSpec): u256 {
    if EnabledIn(spec, Fjord) then SatMul(SizeFjord(input), 16) / 1_000_000
    else
      var tokens := Tokens(input) + if EnabledIn(spec, Regolith) then 0 else 68 * 4;
      if tokens * 4 > U64_MAX then U64_MAX else tokens * 4
  }

  function CostBedrock(info: Info, input: seq<byte>, spec: OpSpec): u256 {
    var gas := SatAdd(DataGas(input, spec), Or0(info.l1FeeOverhead));
    SatMul(SatMul(gas, info.l1BaseFee), info.l1BaseFeeScalar) / 1_000_000
  }

  function FeeScaled(info: Info): u256 {
    SatAdd(
      SatMul(SatMul(info.l1BaseFee, 16), info.l1BaseFeeScalar),
      SatMul(Or0(info.l1BlobBaseFee), Or0(info.l1BlobBaseFeeScalar)))
  }

  function CostEcotone(info: Info, input: seq<byte>, spec: OpSpec): u256 {
    if info.emptyEcotoneScalars then CostBedrock(info, input, spec)
    else SatMul(FeeScaled(info), DataGas(input, spec)) / 16_000_000
  }

  function CostFjord(info: Info, input: seq<byte>): u256 {
    var scaled := FeeScaled(info);
    if scaled == 0 then 0 else SatMul(SizeFjord(input), scaled) / 1_000_000_000_000
  }

  /** The L1 cost of an envelope, computed afresh. */
  function L1Cost(info: Info, input: seq<byte>, spec: OpSpec): u256 {
    if !Chargeable(input) then 0
    else if EnabledIn(spec, Fjord) then CostFjord(info, input)
    else if EnabledIn(spec, Ecotone) then CostEcotone(info, input, spec)
    else CostBedrock(info, input, spec)
  }

  // ----- Bounds -----

  lemma L1CostBound(info: Info, input: seq<byte>, spec: OpSpec)
    ensures L1Cost(info, input, spec) <= U256_MAX / 1_000_000
  {
    hide SatMul, SatAdd, DataGas, SizeFjord;
  }

  lemma MulMono(a: nat, b: nat, c: nat)
    requires a <= b
    ensures a * c <= b * c
  {
  }

  const OPERATOR_FEE_MAX: nat := U64_MAX * U32_MAX * 100 + U64_MAX

  /** The operator fee without its saturations. */
  function ExactOperatorFee(info: Info, gas: u64, spec: OpSpec): int
    requires HasOperatorFee(info)
  {
    var scaled := gas * info.operatorFeeScalar.value;
    (if EnabledIn(spec, Jovian) then scaled * 100 else scaled / 1_000_000) + info.operatorFeeConstant.value
  }

  /** The 4- and 8-byte fields keep the operator fee far from saturating. */
  lemma OperatorFeeIsExact(info: Info, gas: u64, spec: OpSpec)
    requires HasOperatorFee(info)
    ensures OperatorFee(info, gas, spec) == ExactOperatorFee(info, gas, spec) <= OPERATOR_FEE_MAX
  {
    var scalar := info.operatorFeeScalar.value;
    MulMono(gas, U64_MAX, scalar);
    MulMono(scalar, U32_MAX, U64_MAX);
    MulNonNegative(gas, scalar);
  }

  lemma DivMono(a: int, b: int)
    requires a <= b
    ensures a / 1_000_000 <= b / 1_000_000
  {
  }

  lemma OperatorFeeMonotone(info: Info, less: u64, more: u64, spec: OpSpec)
    requires HasOperatorFee(info) && less <= more
    ensures OperatorFee(info, less, spec) <= OperatorFee(info, more, spec)
  {
    hide OperatorFee;
    OperatorFeeIsExact(info, less, spec);
    OperatorFeeIsExact(info, more, spec);
    MulMono(less, more, info.operatorFeeScalar.value);
    DivMono(less * info.operatorFeeScalar.value, more * info.operatorFeeScalar.value);
  }

  // ----- Flows -----

  /** What one transaction's L1 and operator fees move: taken from the caller, given back, paid to the two vaults. */
  datatype Flow = Flow(charged: nat, refunded: nat, l1Paid: nat, operatorPaid: nat)

  /** Charge in `validate_against_state_and_deduct_caller`, refund in `reimburse_caller`, payments in
      `reward_beneficiary`. */
  function Flows(info: Info, envelope: seq<byte>, gas: Gas, spec: OpSpec, feeChargeDisabled: bool): Flow
    requires EnabledIn(spec, Isthmus) ==> HasOperatorFee(info)
  {
    var l1 := L1Cost(info, envelope, spec);
    Flow(
      if feeChargeDisabled then 0 else SatAdd(l1, OperatorFeeCharge(info, envelope, gas.limit, spec)),
      if feeChargeDisabled then 0 else OperatorFeeRefund(info, gas, spec),
      l1,
      OperatorFeeCharge(info, envelope, SatSub(Used(gas), gas.reservoir), spec))
  }

  predicate Conserved(flow: Flow) {
    flow.charged == flow.refunded + flow.l1Paid + flow.operatorPaid
  }

  /** Both sides of the settlement price the same gas. */
  lemma SameGas(gas: Gas)
    ensures SatSub(gas.limit, gas.remaining + gas.reservoir + gas.refunded) == SatSub(Used(gas), gas.reservoir)
  {
  }

  /** The charge never saturates: the caller is asked for the exact sum. */
  lemma ChargeIsExact(info: Info, envelope: seq<byte>, gas: u64, spec: OpSpec)
    requires EnabledIn(spec, Isthmus) ==> HasOperatorFee(info)
    ensures SatAdd(L1Cost(info, envelope, spec), OperatorFeeCharge(info, envelope, gas, spec))
            == L1Cost(info, envelope, spec) + OperatorFeeCharge(info, envelope, gas, spec)
  {
    hide L1Cost, OperatorFee;
    L1CostBound(info, envelope, spec);
    if EnabledIn(spec, Isthmus) { OperatorFeeIsExact(info, gas, spec); }
  }

  lemma UsedWithinLimit(gas: Gas)
    ensures SatSub(Used(gas), gas.reservoir) <= gas.limit
  {
  }

  lemma SatSubExact(a: nat, b: nat)
    requires b <= a
    ensures SatSub(a, b) == a - b
  {
  }

  lemma FreeEnvelope(info: Info, envelope: seq<byte>, spec: OpSpec)
    ensures !Chargeable(envelope) ==> L1Cost(info, envelope, spec) == 0
  {
  }

  /** The four amounts, without saturation. */
  lemma FlowAmounts(info: Info, envelope: seq<byte>, gas: Gas, spec: OpSpec, feeChargeDisabled: bool)
    requires EnabledIn(spec, Isthmus) ==> HasOperatorFee(info)
    ensures var flow := Flows(info, envelope, gas, spec, feeChargeDisabled);
      var l1, used := L1Cost(info, envelope, spec), SatSub(Used(gas), gas.reservoir);
      && flow.l1Paid == l1 && (!Chargeable(envelope) ==> l1 == 0)
      && flow.operatorPaid == OperatorFeeCharge(info, envelope, used, spec)
      && (if !EnabledIn(spec, Isthmus) then
            flow.operatorPaid == 0 && flow.refunded == 0 && flow.charged == if feeChargeDisabled then 0 else l1
          else
            && flow.operatorPaid == (if Chargeable(envelope) then OperatorFee(info, used, spec) else 0)
            && flow.refunded ==
                 (if feeChargeDisabled then 0 else OperatorFee(info, gas.limit, spec) - OperatorFee(info, used, spec))
            && flow.charged ==
                 if feeChargeDisabled then 0
                 else l1 + if Chargeable(envelope) then OperatorFee(info, gas.limit, spec) else 0)
  {
    hide OperatorFee, L1Cost, SatAdd, SatSub, EnabledIn, Used, HasOperatorFee;
    var used := SatSub(Used(gas), gas.reservoir);
    ChargeIsExact(info, envelope, gas.limit, spec);
    SameGas(gas);
    UsedWithinLimit(gas);
    if EnabledIn(spec, Isthmus) {
      OperatorFeeMonotone(info, used, gas.limit, spec);
      SatSubExact(OperatorFee(info, gas.limit, spec), OperatorFee(info, used, spec));
    }
    FreeEnvelope(info, envelope, spec);
  }

  /** When the fees of a non-deposit transaction balance: always with charging on and a chargeable
      envelope. An empty or 0x7E envelope is charged nothing and still refunded, so from Isthmus on
      it balances only if the unused gas is worth no operator fee; with charging off the vaults are
      paid all the same, so it balances only if there is nothing to pay. */
  lemma FeesConservedExactly(info: Info, envelope: seq<byte>, gas: Gas, spec: OpSpec, feeChargeDisabled: bool)
    requires EnabledIn(spec, Isthmus) ==> HasOperatorFee(info)
    ensures Conserved(Flows(info, envelope, gas, spec, feeChargeDisabled)) <==>
            if feeChargeDisabled then
              L1Cost(info, envelope, spec) == 0 &&
                OperatorFeeCharge(info, envelope, SatSub(Used(gas), gas.reservoir), spec) == 0
            else
              Chargeable(envelope) || !EnabledIn(spec, Isthmus)
              || OperatorFee(info, gas.limit, spec) == OperatorFee(info, SatSub(Used(gas), gas.reservoir), spec)
  {
    hide Flows, OperatorFee, OperatorFeeCharge, L1Cost, SatSub, EnabledIn, Used, HasOperatorFee;
    FlowAmounts(info, envelope, gas, spec, feeChargeDisabled);
  }

  /** Whether every outcome of a transaction with this gas limit balances, told before it runs: with charging on, from
      the envelope or from an operator fee that does not depend on gas; with charging off, from nothing being due. */
  predicate AlwaysBalances(info: Info, envelope: seq<byte>, limit: u64, spec: OpSpec, feeChargeDisabled: bool)
    requires EnabledIn(spec, Isthmus) ==> HasOperatorFee(info)
  {
    if feeChargeDisabled then
      !Chargeable(envelope) ||
        (L1Cost(info, envelope, spec) == 0 && (EnabledIn(spec, Isthmus) ==> OperatorFee(info, limit, spec) == 0))
    else
      Chargeable(envelope) || !EnabledIn(spec, Isthmus) ||
        OperatorFee(info, limit, spec) == info.operatorFeeConstant.value
  }

  /** The fee of the gas used lies between that of none and that of the limit. */
  lemma FeeBetween(info: Info, gas: Gas, spec: OpSpec)
    requires EnabledIn(spec, Isthmus) ==> HasOperatorFee(info)
    ensures EnabledIn(spec, Isthmus) ==>
      && OperatorFee(info, 0, spec) == info.operatorFeeConstant.value
      && OperatorFee(info, 0, spec) <= OperatorFee(info, SatSub(Used(gas), gas.reservoir), spec)
      && OperatorFee(info, SatSub(Used(gas), gas.reservoir), spec) <= OperatorFee(info, gas.limit, spec)
  {
    hide OperatorFee;
    if EnabledIn(spec, Isthmus) {
      OperatorFeeIsExact(info, 0, spec);
      OperatorFeeMonotone(info, 0, SatSub(Used(gas), gas.reservoir), spec);
      OperatorFeeMonotone(info, SatSub(Used(gas), gas.reservoir), gas.limit, spec);
    }
  }

  /** The fees of a transaction balance whatever gas it ends up using if and only if that test holds before it runs. */
  lemma FeesAlwaysConserved(info: Info, envelope: seq<byte>, limit: u64, spec: OpSpec, feeChargeDisabled: bool)
    requires EnabledIn(spec, Isthmus) ==> HasOperatorFee(info)
    ensures AlwaysBalances(info, envelope, limit, spec, feeChargeDisabled) <==>
      forall gas: Gas :: gas.limit == limit ==> Conserved(Flows(info, envelope, gas, spec, feeChargeDisabled))
  {
    hide OperatorFee, L1Cost, SatAdd, Flows, Conserved;
    if AlwaysBalances(info, envelope, limit, spec, feeChargeDisabled) {
      forall gas: Gas | gas.limit == limit
        ensures Conserved(Flows(info, envelope, gas, spec, feeChargeDisabled))
      {
        FeesConservedExactly(info, envelope, gas, spec, feeChargeDisabled);
        FreeEnvelope(info, envelope, spec);
        FeeBetween(info, gas, spec);
      }
    } else {
      // Nothing used shows the refund of an uncharged envelope, everything used the largest payment.
      var gas := if feeChargeDisabled then Gas(limit, 0, 0, 0) else Gas(limit, limit, 0, 0);
      FeesConservedExactly(info, envelope, gas, spec, feeChargeDisabled);
      FeeBetween(info, gas, spec);
    }
  }

  /** An L1Block contract that sets an operator fee of one per gas and nothing else. */
  function OperatorFeeOnly(slot: nat): u256 {
    if slot == 8 then 1_000_000 * TWO_64 else 0
  }

  /** An envelope that is charged nothing and gets a refund, with info that is really fetched: value from nowhere. */
  lemma UnchargedEnvelopeMintsValue()
    ensures var info := TryFetch(OperatorFeeOnly, 1, Isthmus);
            var gas := Gas(21_000, 21_000, 0, 0);
            Flows(info, [0x7E], gas, Isthmus, false) == Flow(0, 21_000, 0, 0) && !Conserved(Flow(0, 21_000, 0, 0))
  {
    var info := TryFetch(OperatorFeeOnly, 1, Isthmus);
    assert info.operatorFeeScalar == Some(1_000_000) && info.operatorFeeConstant == Some(0);
    assert OperatorFee(info, 21_000, Isthmus) == 21_000 && OperatorFee(info, 0, Isthmus) == 0;
  }
}

/** The fees read off the L1Block contract's storage, byte by byte and without intermediate saturation. */
module L1Pricing {
  import opened Bytes
  import opened BigEndian
  import opened L1Block
  import FastLz
  import FastLzParse

  /** Bytes `first` to `end` of a 32-byte big-endian word, as a number. */
  function Slice(word: u256, first: nat, end: nat): nat
    requires first <= end <= 32
  {
    FromBytes(ToBytes(word, 32)[first..end])
  }

  lemma FieldIsSlice(word: u256, first: nat, end: nat, low: nat, size: nat)
    requires first <= end <= 32 && low == Pow256(32 - end) && size == Pow256(end - first)
    ensures Field(word, low, size) == Slice(word, first, end)
  {
    hide Pow256, ToBytes, FromBytes;
    FromMiddleBytes(word, 32, first, end);
  }

  lemma FieldWidths()
    ensures Pow256(0) == 1 && Pow256(2) == TWO_16 && Pow256(4) == TWO_32 && Pow256(8) == TWO_64 && Pow256(12) == TWO_96
  {
    assert Pow256(8) == TWO_64 by { assert Pow256(4) == TWO_32; }
    assert Pow256(12) == TWO_96 by { assert Pow256(10) == 0x1_0000 * Pow256(8); }
  }

  predicate FromEcotone(spec: OpSpec) {
    !(spec.Bedrock? || spec.Regolith? || spec.Canyon?)
  }

  predicate FromJovian(spec: OpSpec) {
    spec.Jovian? || spec.Karst? || spec.Lagoon?
  }

  predicate FromIsthmus(spec: OpSpec) {
    spec.Isthmus? || FromJovian(spec)
  }

  /** Before Ecotone: base fee in slot 1, overhead in slot 5, scalar in slot 6. */
  lemma FetchedBeforeEcotone(storage: Storage, l2Block: nat, spec: OpSpec)
    requires !FromEcotone(spec)
    ensures TryFetch(storage, l2Block, spec) ==
      Info(Some(l2Block), storage(1), Some(storage(5)), storage(6), None, None, None, None, None, false)
  {
  }

  /**
   * From Ecotone on: base fee in slot 1, blob base fee in slot 7, and packed into slot 3 the base fee scalar (bytes 16
   * to 20) and the blob base fee scalar (bytes 20 to 24); all eight bytes zero is how unset scalars are told, and then
   * the overhead is still read. Slot 8 adds the operator fee scalar and constant from Isthmus on, and the data
   * footprint scalar from Jovian on.
   */
  lemma FetchedFromEcotone(storage: Storage, l2Block: nat, spec: OpSpec)
    requires FromEcotone(spec)
    ensures var info := TryFetch(storage, l2Block, spec);
      && info.l2Block == Some(l2Block) && info.l1BaseFee == storage(1) && info.l1BlobBaseFee == Some(storage(7))
      && info.l1BaseFeeScalar == Slice(storage(3), 16, 20)
      && info.l1BlobBaseFeeScalar == Some(Slice(storage(3), 20, 24))
      && info.emptyEcotoneScalars == (Slice(storage(3), 16, 24) == 0)
      && info.l1FeeOverhead == (if Slice(storage(3), 16, 24) == 0 then Some(storage(5)) else None)
      && info.operatorFeeScalar == (if FromIsthmus(spec) then Some(Slice(storage(8), 20, 24)) else None)
      && info.operatorFeeConstant == (if FromIsthmus(spec) then Some(Slice(storage(8), 24, 32)) else None)
      && info.daFootprintGasScalar == (if FromJovian(spec) then Some(Slice(storage(8), 18, 20)) else None)
  {
    FieldWidths();
    hide Pow256, Slice, Field;
    FieldIsSlice(storage(3), 16, 20, TWO_96, TWO_32);
    FieldIsSlice(storage(3), 20, 24, TWO_64, TWO_32);
    FieldIsSlice(storage(3), 16, 24, TWO_64, TWO_64);
    FieldIsSlice(storage(8), 20, 24, TWO_64, TWO_32);
    FieldIsSlice(storage(8), 24, 32, 1, TWO_64);
    FieldIsSlice(storage(8), 18, 20, TWO_96, TWO_16);
    EmptyScalars(storage(3));
  }

  // ----- One saturation instead of many -----

  function Capped(x: nat): u256 {
    if x > U256_MAX then U256_MAX else x
  }

  /** Saturating at every factor is saturating the product. */
  lemma SatMulCapped(x: nat, b: u256)
    ensures x * b >= 0 && SatMul(Capped(x), b) == Capped(x * b)
  {
    MulNonNegative(x, b);
    if x > U256_MAX {
      if b > 0 {
        MulMono(1, b, x);
        MulMono(1, b, U256_MAX);
      }
    }
  }

  lemma SatMulCommutes(a: u256, b: u256)
    ensures SatMul(a, b) == SatMul(b, a)
  {
  }

  lemma SatAddCapped(x: nat, y: nat)
    ensures SatAdd(Capped(x), Capped(y)) == Capped(x + y)
  {
  }

  lemma CappedSmall(a: u256)
    ensures Capped(a) == a
  {
  }

  /** `16 * baseFee * baseScalar + blobFee * blobScalar`. */
  function PerByte(baseFee: nat, baseScalar: nat, blobFee: nat, blobScalar: nat): nat {
    MulNonNegative(16 * baseFee, baseScalar);
    MulNonNegative(blobFee, blobScalar);
    16 * baseFee * baseScalar + blobFee * blobScalar
  }

  lemma FeeScaledIsCapped(info: Info)
    ensures FeeScaled(info) ==
      Capped(PerByte(info.l1BaseFee, info.l1BaseFeeScalar, Or0(info.l1BlobBaseFee), Or0(info.l1BlobBaseFeeScalar)))
  {
    hide Capped, SatMul, SatAdd;
    CappedSmall(info.l1BaseFee);
    SatMulCapped(info.l1BaseFee, 16);
    SatMulCapped(info.l1BaseFee * 16, info.l1BaseFeeScalar);
    CappedSmall(Or0(info.l1BlobBaseFee));
    SatMulCapped(Or0(info.l1BlobBaseFee), Or0(info.l1BlobBaseFeeScalar));
    SatAddCapped(info.l1BaseFee * 16 * info.l1BaseFeeScalar, Or0(info.l1BlobBaseFee) * Or0(info.l1BlobBaseFeeScalar));
  }

  // ----- Calldata gas -----

  lemma {:induction false} TokensCount(input: seq<byte>)
    ensures Tokens(input) == 4 * |input| - 3 * multiset(input)[0]
  {
    if input != [] {
      var init, last := input[..|input| - 1], input[|input| - 1];
      TokensCount(init);
      assert input == init + [last];
      assert multiset(input) == multiset(init) + multiset{last};
    }
  }

  lemma ZerosWithin(input: seq<byte>)
    ensures multiset(input)[0] <= |input|
  {
    TokensCount(input);
  }

  /** Before Fjord every byte costs 16 gas and a zero byte 4; before Regolith 68 more non-zero bytes are counted. */
  lemma CalldataGas(input: seq<byte>, spec: OpSpec)
    requires !FromEcotone(spec) || spec.Ecotone?
    ensures var gas := 16 * |input| - 12 * multiset(input)[0] + if spec.Bedrock? then 16 * 68 else 0;
      DataGas(input, spec) == if gas > U64_MAX then U64_MAX else gas
  {
    TokensCount(input);
  }

  lemma SizeIsEstimate(input: seq<byte>)
    ensures SizeFjord(input) == FastLz.SizeFromLength(FastLzParse.Cost(FastLz.Start(input)))
  {
    hide FastLzParse.Cost, FastLz.SizeFromLength;
  }

  /** From Fjord on the data gas is 16 per byte of the estimated size, which is scaled by a million. */
  lemma CompressedGas(input: seq<byte>, spec: OpSpec)
    requires FromEcotone(spec) && !spec.Ecotone?
    ensures DataGas(input, spec) == FastLz.SizeFromLength(FastLzParse.Cost(FastLz.Start(input))) * 16 / 1_000_000
  {
    hide FastLzParse.Cost, FastLz.SizeFromLength;
  }

  // ----- What a transaction pays -----

  /** An empty envelope or a deposit's. */
  predicate Free(input: seq<byte>) {
    input == [] || input[0] == 0x7E
  }

  lemma FreeCost(storage: Storage, l2Block: nat, spec: OpSpec, input: seq<byte>)
    requires Free(input)
    ensures L1Cost(TryFetch(storage, l2Block, spec), input, spec) == 0
  {
    hide TryFetch;
  }

  /** Bedrock, Regolith and Canyon: calldata gas and overhead, times base fee and scalar, over a million. */
  lemma BedrockCost(storage: Storage, l2Block: nat, spec: OpSpec, input: seq<byte>)
    requires !FromEcotone(spec) && !Free(input)
    ensures (DataGas(input, spec) + storage(5)) * storage(1) * storage(6) >= 0
    ensures L1Cost(TryFetch(storage, l2Block, spec), input, spec) ==
      Capped((DataGas(input, spec) + storage(5)) * storage(1) * storage(6)) / 1_000_000
  {
    FetchedBeforeEcotone(storage, l2Block, spec);
    hide TryFetch, SatMul, SatAdd, Capped, DataGas;
    var gas := DataGas(input, spec);
    CappedSmall(gas);
    CappedSmall(storage(5));
    SatAddCapped(gas, storage(5));
    SatMulCapped(gas + storage(5), storage(1));
    SatMulCapped((gas + storage(5)) * storage(1), storage(6));
  }

  lemma ZeroScalars(word: u256)
    ensures Slice(word, 16, 24) == 0 <==> Slice(word, 16, 20) == 0 && Slice(word, 20, 24) == 0
  {
    FieldWidths();
    hide Pow256, Slice, Field;
    FieldIsSlice(word, 16, 20, TWO_96, TWO_32);
    FieldIsSlice(word, 20, 24, TWO_64, TWO_32);
    FieldIsSlice(word, 16, 24, TWO_64, TWO_64);
    EmptyScalars(word);
  }

  lemma ScalarZero(a: u256)
    ensures SatMul(a, 0) == 0 == SatMul(0, a)
  {
  }

  lemma PerByteZero(baseFee: nat, blobFee: nat)
    ensures PerByte(baseFee, 0, blobFee, 0) == 0
  {
  }

  /**
   * Ecotone: calldata gas times the price of a byte, over sixteen million. While both scalars are unset the code falls
   * back to the Bedrock formula with the Ecotone scalar, which is zero: the cost is zero, as this formula says too.
   */
  lemma EcotoneCost(storage: Storage, l2Block: nat, input: seq<byte>)
    requires !Free(input)
    ensures var price := PerByte(storage(1), Slice(storage(3), 16, 20), storage(7), Slice(storage(3), 20, 24));
      && price * DataGas(input, Ecotone) >= 0
      && L1Cost(TryFetch(storage, l2Block, Ecotone), input, Ecotone) ==
           Capped(price * DataGas(input, Ecotone)) / 16_000_000
    ensures Slice(storage(3), 16, 24) == 0 ==> L1Cost(TryFetch(storage, l2Block, Ecotone), input, Ecotone) == 0
  {
    FetchedFromEcotone(storage, l2Block, Ecotone);
    hide TryFetch, SatMul, SatAdd, DataGas, FeeScaled, PerByte, Slice;
    var info, gas := TryFetch(storage, l2Block, Ecotone), DataGas(input, Ecotone);
    var price := PerByte(storage(1), Slice(storage(3), 16, 20), storage(7), Slice(storage(3), 20, 24));
    ZeroScalars(storage(3));
    if Slice(storage(3), 16, 24) == 0 {
      ScalarZero(SatMul(SatAdd(gas, Or0(info.l1FeeOverhead)), info.l1BaseFee));
      PerByteZero(storage(1), storage(7));
    } else {
      hide Capped;
      FeeScaledIsCapped(info);
      SatMulCapped(price, gas);
    }
  }

  lemma CappedZero(x: nat)
    ensures Capped(x) == 0 <==> x == 0
  {
  }

  /** Fjord and later: estimated size times the price of a byte, over a million million. */
  lemma FjordCost(storage: Storage, l2Block: nat, spec: OpSpec, input: seq<byte>)
    requires FromEcotone(spec) && !spec.Ecotone? && !Free(input)
    ensures var price := PerByte(storage(1), Slice(storage(3), 16, 20), storage(7), Slice(storage(3), 20, 24));
      var size := FastLz.SizeFromLength(FastLzParse.Cost(FastLz.Start(input)));
      && price * size >= 0
      && L1Cost(TryFetch(storage, l2Block, spec), input, spec) == Capped(price * size) / 1_000_000_000_000
  {
    FetchedFromEcotone(storage, l2Block, spec);
    SizeIsEstimate(input);
    hide TryFetch, SatMul, SatAdd, SizeFjord, FeeScaled, PerByte, Slice, Capped;
    hide FastLzParse.Cost, FastLz.SizeFromLength;
    var info, size := TryFetch(storage, l2Block, spec), SizeFjord(input);
    var price := PerByte(storage(1), Slice(storage(3), 16, 20), storage(7), Slice(storage(3), 20, 24));
    FeeScaledIsCapped(info);
    CappedZero(price);
    SatMulCapped(price, size);
    SatMulCommutes(size, Capped(price));
    if price == 0 {
      ScalarZero(size);
    }
  }

  lemma PerByteAlike(baseFee: nat, s: nat, s': nat, blobFee: nat, t: nat, t': nat)
    requires (baseFee == 0 || s == s') && (blobFee == 0 || t == t')
    ensures PerByte(baseFee, s, blobFee, t) == PerByte(baseFee, s', blobFee, t')
  {
  }

  /** Without a base fee its scalar does not matter, without a blob fee the blob scalar. */
  lemma FreeScalars(storage: Storage, other: Storage, l2Block: nat, spec: OpSpec, input: seq<byte>)
    requires FromEcotone(spec) && storage(1) == other(1) && storage(7) == other(7)
    requires storage(1) == 0 || Slice(storage(3), 16, 20) == Slice(other(3), 16, 20)
    requires storage(7) == 0 || Slice(storage(3), 20, 24) == Slice(other(3), 20, 24)
    ensures L1Cost(TryFetch(storage, l2Block, spec), input, spec) == L1Cost(TryFetch(other, l2Block, spec), input, spec)
  {
    hide TryFetch, L1Cost, PerByte, Slice;
    PerByteAlike(storage(1), Slice(storage(3), 16, 20), Slice(other(3), 16, 20),
      storage(7), Slice(storage(3), 20, 24), Slice(other(3), 20, 24));
    if Free(input) {
      FreeCost(storage, l2Block, spec, input);
      FreeCost(other, l2Block, spec, input);
    } else if spec.Ecotone? {
      EcotoneCost(storage, l2Block, input);
      EcotoneCost(other, l2Block, input);
    } else {
      FjordCost(storage, l2Block, spec, input);
      FjordCost(other, l2Block, spec, input);
    }
  }

  /** From Isthmus on the operator fee of some gas: by the scalar, per million or from Jovian on times a hundred, plus
      the constant. */
  function OperatorPrice(storage: Storage, spec: OpSpec, gas: u64): nat {
    MulNonNegative(gas, Slice(storage(8), 20, 24));
    var scaled := gas * Slice(storage(8), 20, 24);
    if !FromIsthmus(spec) then 0
    else (if FromJovian(spec) then scaled * 100 else scaled / 1_000_000) + Slice(storage(8), 24, 32)
  }

  lemma OperatorCharge(storage: Storage, l2Block: nat, spec: OpSpec, input: seq<byte>, gas: u64)
    ensures OperatorFeeCharge(TryFetch(storage, l2Block, spec), input, gas, spec) ==
      if Free(input) then 0 else OperatorPrice(storage, spec, gas)
  {
    hide TryFetch, OperatorFee, Slice;
    if FromIsthmus(spec) {
      FetchedFromEcotone(storage, l2Block, spec);
      OperatorFeeIsExact(TryFetch(storage, l2Block, spec), gas, spec);
    }
  }

  /** The refund is the price of the limit less the price of the gas used, however much of it was refunded. */
  lemma OperatorRefund(storage: Storage, l2Block: nat, spec: OpSpec, gas: Gas)
    ensures var unused := gas.remaining + gas.reservoir + gas.refunded;
      OperatorFeeRefund(TryFetch(storage, l2Block, spec), gas, spec) ==
        OperatorPrice(storage, spec, gas.limit)
          - OperatorPrice(storage, spec, if unused > gas.limit then 0 else gas.limit - unused)
  {
    hide TryFetch, OperatorFee, Slice;
    var info := TryFetch(storage, l2Block, spec);
    var used := SatSub(gas.limit, gas.remaining + gas.reservoir + gas.refunded);
    if FromIsthmus(spec) {
      FetchedFromEcotone(storage, l2Block, spec);
      OperatorFeeIsExact(info, gas.limit, spec);
      OperatorFeeIsExact(info, used, spec);
      OperatorFeeMonotone(info, used, gas.limit, spec);
    }
  }
}

/** The handler's fee flow over one EVM context: charge, refund, payment, and the cached L1 cost. */
module OpHandling {
  import opened Bytes
  import opened L1Block

  /** `L1BlockInfo`: the loaded info and the L1 cost cached between charging and paying. */
  class L1BlockInfo {
    var info: Info
    var txL1Cost: Option<u256>

    constructor (info: Info)
      ensures this.info == info && txL1Cost == None
    {
      this.info, txL1Cost := info, None;
    }

    method CalculateTxL1Cost(envelope: seq<byte>, spec: OpSpec) returns (cost: u256)
      modifies this`txL1Cost
      ensures cost == if old(txL1Cost).Some? then old(txL1Cost).value else L1Cost(info, envelope, spec)
      ensures txL1Cost == if old(txL1Cost).None? && !Chargeable(envelope) then None else Some(cost)
    {
      if txL1Cost.Some? {
        return txL1Cost.value;
      }
      if !Chargeable(envelope) {
        return 0;
      } else if EnabledIn(spec, Fjord) {
        cost := CostFjord(info, envelope);
      } else if EnabledIn(spec, Ecotone) {
        cost := CostEcotone(info, envelope, spec);
      } else {
        cost := CostBedrock(info, envelope, spec);
      }
      txL1Cost := Some(cost);
    }

    /** L1 cost plus, from Isthmus on, the operator fee of the whole gas limit. */
    method TxCost(envelope: seq<byte>, gasLimit: u64, spec: OpSpec) returns (cost: u256)
      requires EnabledIn(spec, Isthmus) ==> HasOperatorFee(info)
      modifies this`txL1Cost
      ensures var l1 := if old(txL1Cost).Some? then old(txL1Cost).value else L1Cost(info, envelope, spec);
        && cost == SatAdd(l1, OperatorFeeCharge(info, envelope, gasLimit, spec))
        && txL1Cost == if old(txL1Cost).None? && !Chargeable(envelope) then None else Some(l1)
    {
      cost := CalculateTxL1Cost(envelope, spec);
      if EnabledIn(spec, Isthmus) {
        cost := SatAdd(cost, OperatorFeeCharge(info, envelope, gasLimit, spec));
      }
    }

    method ClearTxL1Cost()
      modifies this`txL1Cost
      ensures txL1Cost == None
    {
      txL1Cost := None;
    }
  }

  const L1_FEE_RECIPIENT: nat := 0x4200_0000_0000_0000_0000_0000_0000_0000_0000_001A
  const OPERATOR_FEE_RECIPIENT: nat := 0x4200_0000_0000_0000_0000_0000_0000_0000_0000_001B
  const BASE_FEE_RECIPIENT: nat := 0x4200_0000_0000_0000_0000_0000_0000_0000_0000_0019

  datatype Tx = Tx(deposit: bool, caller: nat, mint: nat, envelope: Option<seq<byte>>, gasLimit: u64)

  /** What the mainnet handler moves: the caller's upfront fee and reimbursement, the tip, the base fee. */
  datatype Mainnet = Mainnet(upfront: nat, reimbursed: nat, beneficiary: nat, tip: nat, baseFee: nat)

  /** Where, if anywhere, a transaction fails for reasons outside this model: before the L1 info is
      loaded, while loading it, at the account checks, in execution, while paying, at the end. */
  datatype Fate = Rejected | LoadFails | BadAccount | ExecutionFails | PaymentFails | ContextFails | Halts | Runs

  datatype Error = TxError | OtherError

  type Balances = map<nat, nat>

  /** A transaction in its block. `execution` is what running it, between charge and refund, does to the balances. */
  datatype Call = Call(block: nat, tx: Tx, gas: Gas, m: Mainnet, execution: Balances -> Balances, fate: Fate)

  function Balance(b: Balances, who: nat): nat {
    if who in b then b[who] else 0
  }

  function Credit(b: Balances, who: nat, amount: nat): Balances {
    b[who := Balance(b, who) + amount]
  }

  function Debit(b: Balances, who: nat, amount: nat): Balances {
    b[who := SatSub(Balance(b, who), amount)]
  }

  lemma DebitLeaves(b: Balances, who: nat, amount: nat, left: nat)
    requires left + amount == Balance(b, who)
    ensures b[who := left] == Debit(b, who, amount)
  {
  }

  /** The tip, then the three vaults. */
  function Rewarded(b: Balances, m: Mainnet, l1: nat, operator: nat): Balances {
    Credit(Credit(Credit(Credit(b, m.beneficiary, m.tip), L1_FEE_RECIPIENT, l1), BASE_FEE_RECIPIENT, m.baseFee),
           OPERATOR_FEE_RECIPIENT, operator)
  }

  /** A settled transaction: the caller pays the charge and the upfront fee, the transaction runs, the caller gets
      both refunds, and the vaults are paid. */
  function Settled(b: Balances, call: Call, flow: Flow): Balances {
    var charged := Debit(b, call.tx.caller, flow.charged + call.m.upfront);
    var reimbursed := Credit(call.execution(charged), call.tx.caller, call.m.reimbursed + flow.refunded);
    Rewarded(reimbursed, call.m, flow.l1Paid, flow.operatorPaid)
  }

  lemma SettledInSteps(b: Balances, debited: Balances, credited: Balances, after: Balances, call: Call, flow: Flow)
    requires debited == Debit(b, call.tx.caller, flow.charged + call.m.upfront)
    requires credited == Credit(call.execution(debited), call.tx.caller, call.m.reimbursed + flow.refunded)
    requires after == Rewarded(credited, call.m, flow.l1Paid, flow.operatorPaid)
    ensures after == Settled(b, call, flow)
  {
    hide Credit, Debit, Rewarded;
  }

  /** An error that is not the deposit's own undoes all of it, its mint included. */
  predicate DepositLost(fate: Fate) {
    fate.LoadFails? || fate.ExecutionFails? || fate.PaymentFails? || fate.ContextFails?
  }

  /** A deposit that is invalid, or that halts from Regolith on, keeps its mint and nothing else. */
  predicate DepositFailed(fate: Fate, spec: OpSpec) {
    fate.Rejected? || (fate.Halts? && EnabledIn(spec, Regolith))
  }

  /** What a deposit leaves: minted before it runs, never charged L1 or operator fees. */
  function Deposited(b: Balances, call: Call, spec: OpSpec): Balances {
    var minted := Credit(b, call.tx.caller, call.tx.mint);
    if DepositLost(call.fate) then b
    else if DepositFailed(call.fate, spec) then minted
    else Credit(call.execution(Debit(minted, call.tx.caller, call.m.upfront)), call.tx.caller, call.m.reimbursed)
  }

  /** What a settled transaction leaves to anyone: the charge and upfront fee taken from the caller before it runs, both
      refunds given back, the tip to the beneficiary, and each fee to the vault its predeploy address names. */
  lemma SettledBalance(b: Balances, call: Call, flow: Flow, who: nat)
    requires flow.charged + call.m.upfront <= Balance(b, call.tx.caller)
    ensures var charged := b[call.tx.caller := Balance(b, call.tx.caller) - flow.charged - call.m.upfront];
      Balance(Settled(b, call, flow), who) ==
        Balance(call.execution(charged), who)
        + (if who == call.tx.caller then call.m.reimbursed + flow.refunded else 0)
        + (if who == call.m.beneficiary then call.m.tip else 0)
        + (if who == 0x4200_0000_0000_0000_0000_0000_0000_0000_0000_0019 then call.m.baseFee else 0)
        + (if who == 0x4200_0000_0000_0000_0000_0000_0000_0000_0000_001A then flow.l1Paid else 0)
        + (if who == 0x4200_0000_0000_0000_0000_0000_0000_0000_0000_001B then flow.operatorPaid else 0)
  {
    DebitLeaves(b, call.tx.caller, flow.charged + call.m.upfront,
      Balance(b, call.tx.caller) - flow.charged - call.m.upfront);
    hide Debit;
  }

  /** What a deposit leaves: nothing of one lost to an error not its own; the mint alone of an invalid one, and from
      Regolith on of a halting one; otherwise the mint, its upfront fee, what running does, and the reimbursement. */
  lemma DepositedBalances(b: Balances, call: Call, spec: OpSpec)
    ensures var caller, fate := call.tx.caller, call.fate;
      var minted := Balance(b, caller) + call.tx.mint;
      Deposited(b, call, spec) ==
        match fate
        case LoadFails => b
        case ExecutionFails => b
        case PaymentFails => b
        case ContextFails => b
        case Rejected => b[caller := minted]
        case _ =>
          if fate.Halts? && !spec.Bedrock? then b[caller := minted]
          else
            var left := if minted < call.m.upfront then 0 else minted - call.m.upfront;
            var run := call.execution(b[caller := left]);
            run[caller := Balance(run, caller) + call.m.reimbursed]
  {
    var minted := Balance(b, call.tx.caller) + call.tx.mint;
    var left := if minted < call.m.upfront then 0 else minted - call.m.upfront;
    assert b[call.tx.caller := minted][call.tx.caller := left] == b[call.tx.caller := left];
  }

  class Evm {
    const chain: L1BlockInfo
    const feeChargeDisabled: bool
    /** Each block's L1Block storage and hardfork. */
    const storageOf: nat -> Storage
    const specOf: nat -> OpSpec
    var balances: Balances

    function InfoOf(n: nat): Info {
      TryFetch(storageOf(n), n, specOf(n))
    }

    ghost predicate Loaded()
      reads chain
    {
      chain.info.l2Block.Some? ==> chain.info == InfoOf(chain.info.l2Block.value)
    }

    /** Between transactions: no cached cost, and the info is some block's own. */
    ghost predicate Valid()
      reads chain
    {
      chain.txL1Cost == None && Loaded()
    }

    /** The cached cost, if any, is this transaction's own, priced with its own block's info. */
    ghost predicate OwnCost(call: Call)
      reads chain
    {
      Loaded() && (chain.txL1Cost.Some? ==>
        && chain.info == InfoOf(call.block) && call.tx.envelope.Some?
        && chain.txL1Cost.value == L1Cost(chain.info, call.tx.envelope.value, specOf(call.block)))
    }

    /** What charging asks of the caller. */
    ghost function Charge(call: Call): nat {
      if feeChargeDisabled || call.tx.envelope.None? then 0
      else
        SatAdd(L1Cost(InfoOf(call.block), call.tx.envelope.value, specOf(call.block)),
               OperatorFeeCharge(InfoOf(call.block), call.tx.envelope.value, call.tx.gasLimit, specOf(call.block)))
    }

    /** The caller cannot pay the charge and the upfront fee. */
    ghost predicate Short(b: Balances, call: Call) {
      Charge(call) + call.m.upfront > Balance(b, call.tx.caller)
    }

    /** The fees of the transaction's own envelope under its own block's info. */
    ghost function OwnFlows(call: Call): Flow
      requires call.tx.envelope.Some?
    {
      Flows(InfoOf(call.block), call.tx.envelope.value, call.gas, specOf(call.block), feeChargeDisabled)
    }

    /**
     * One transaction accounts for what it did to the balances. A settled one moved exactly its own fees and could
     * pay them; one without a receipt moved nothing, and it had no envelope, failed elsewhere or could not pay.
     */
    ghost predicate Accounted(call: Call, before: Balances, receipt: Option<Flow>, after: Balances) {
      if call.tx.deposit then receipt.None? && after == Deposited(before, call, specOf(call.block))
      else if receipt.Some? then
        && call.tx.envelope.Some? && !call.fate.BadAccount? && !call.fate.ExecutionFails?
        && !call.fate.PaymentFails? && !call.fate.ContextFails?
        && receipt.value == OwnFlows(call)
        && receipt.value.charged + call.m.upfront <= Balance(before, call.tx.caller)
        && after == Settled(before, call, receipt.value)
      else
        && after == before
        && (call.tx.envelope.None? || !(call.fate.Runs? || call.fate.Halts?) || Short(before, call))
    }

    constructor (storageOf: nat -> Storage, specOf: nat -> OpSpec, feeChargeDisabled: bool, balances: Balances)
      ensures Valid() && fresh(chain) && this.balances == balances
      ensures this.storageOf == storageOf && this.specOf == specOf && this.feeChargeDisabled == feeChargeDisabled
    {
      chain := new L1BlockInfo(Info(None, 0, None, 0, None, None, None, None, None, false));
      this.storageOf, this.specOf, this.feeChargeDisabled := storageOf, specOf, feeChargeDisabled;
      this.balances := balances;
    }

    /** Fetches the L1 info of a block not met before, which starts without a cached cost. */
    method LoadInfo(block: nat, fate: Fate) returns (ok: bool)
      requires Valid()
      modifies chain
      ensures Valid() && (ok ==> chain.info == InfoOf(block))
      ensures ok <==> old(chain.info.l2Block) == Some(block) || !fate.LoadFails?
    {
      hide TryFetch;
      if chain.info.l2Block != Some(block) {
        if fate.LoadFails? { return false; }
        chain.info, chain.txL1Cost := TryFetch(storageOf(block), block, specOf(block)), None;
      }
      ok := true;
    }

    /** The L1 cost and operator fee to take from the caller; nothing is priced while charging is off. */
    method ChargeOf(call: Call) returns (charge: Option<nat>)
      requires Valid() && chain.info == InfoOf(call.block)
      modifies chain`txL1Cost
      ensures OwnCost(call)
      ensures charge.None? <==> !feeChargeDisabled && call.tx.envelope.None?
      ensures charge.Some? ==> charge.value == Charge(call)
    {
      hide L1Cost, OperatorFee, TryFetch, SatAdd, OperatorFeeCharge;
      if feeChargeDisabled { return Some(0); }
      if call.tx.envelope.None? { return None; }
      var cost := chain.TxCost(call.tx.envelope.value, call.tx.gasLimit, specOf(call.block));
      charge := Some(cost);
    }

    /** `validate_against_state_and_deduct_caller` for a non-deposit transaction. */
    method DeductCaller(call: Call) returns (r: Result<nat, Error>)
      requires Valid()
      modifies this`balances, chain
      ensures OwnCost(call)
      ensures r.Ok? ==>
        && chain.info == InfoOf(call.block) && (call.tx.envelope.None? ==> feeChargeDisabled) && r.value == Charge(call)
        && r.value + call.m.upfront <= Balance(old(balances), call.tx.caller)
        && balances == Debit(old(balances), call.tx.caller, r.value + call.m.upfront)
      ensures r.Err? ==> balances == old(balances)
      ensures call.fate.BadAccount? ==> r.Err?
      ensures r.Err? ==>
        || call.fate.LoadFails? || call.fate.BadAccount? || (call.tx.envelope.None? && !feeChargeDisabled)
        || Short(old(balances), call)
    {
      hide L1Cost, OperatorFee, TryFetch, SatAdd, Debit, OperatorFeeCharge, Balance, Charge;
      var loaded := LoadInfo(call.block, call.fate);
      if !loaded { return Err(OtherError); }
      if call.fate.BadAccount? { return Err(TxError); }
      var charge := ChargeOf(call);
      if charge.None? { return Err(TxError); }
      var balance, cost := Balance(balances, call.tx.caller), charge.value;
      if balance < cost { return Err(TxError); }
      balance := balance - cost;
      if balance < call.m.upfront { return Err(TxError); }
      DebitLeaves(balances, call.tx.caller, cost + call.m.upfront, balance - call.m.upfront);
      balances := balances[call.tx.caller := balance - call.m.upfront];
      r := Ok(cost);
    }

    /** `reimburse_caller`: the mainnet reimbursement and the operator fee of the unused gas. */
    method ReimburseCaller(call: Call) returns (refund: nat)
      requires chain.info == InfoOf(call.block)
      modifies this`balances
      ensures refund == if call.tx.deposit || feeChargeDisabled then 0
                        else OperatorFeeRefund(InfoOf(call.block), call.gas, specOf(call.block))
      ensures balances == Credit(old(balances), call.tx.caller, call.m.reimbursed + refund)
    {
      hide OperatorFee, TryFetch;
      refund := 0;
      if !call.tx.deposit && !feeChargeDisabled {
        refund := OperatorFeeRefund(chain.info, call.gas, specOf(call.block));
      }
      balances := Credit(balances, call.tx.caller, call.m.reimbursed + refund);
    }

    /** `reward_beneficiary` for a non-deposit transaction: the tip, then the three vaults. */
    method RewardBeneficiary(call: Call) returns (r: Result<(nat, nat), Error>)
      requires OwnCost(call) && chain.info == InfoOf(call.block)
      modifies this`balances, chain`txL1Cost
      ensures OwnCost(call)
      ensures r.Ok? ==>
        && call.tx.envelope.Some?
        && r.value.0 == L1Cost(InfoOf(call.block), call.tx.envelope.value, specOf(call.block))
        && r.value.1 == OperatorFeeCharge(
             InfoOf(call.block), call.tx.envelope.value, SatSub(Used(call.gas), call.gas.reservoir), specOf(call.block))
        && balances == Rewarded(old(balances), call.m, r.value.0, r.value.1)
      ensures r.Err? <==> call.tx.envelope.None? || call.fate.PaymentFails?
    {
      hide L1Cost, OperatorFee, TryFetch;
      balances := Credit(balances, call.m.beneficiary, call.m.tip);
      if call.tx.envelope.None? { return Err(TxError); }
      var spec := specOf(call.block);
      var l1Cost := chain.CalculateTxL1Cost(call.tx.envelope.value, spec);
      if call.fate.PaymentFails? { return Err(OtherError); }
      var used := SatSub(Used(call.gas), call.gas.reservoir);
      var operatorCost :=
        if EnabledIn(spec, Isthmus) then OperatorFeeCharge(chain.info, call.tx.envelope.value, used, spec) else 0;
      balances := Credit(balances, L1_FEE_RECIPIENT, l1Cost);
      balances := Credit(balances, BASE_FEE_RECIPIENT, call.m.baseFee);
      balances := Credit(balances, OPERATOR_FEE_RECIPIENT, operatorCost);
      r := Ok((l1Cost, operatorCost));
    }

    /** `catch_error`: a failed deposit keeps its mint, anything else is undone; the cached cost goes either way. */
    method CatchError(tx: Tx, error: Error, snapshot: Balances)
      requires Loaded()
      modifies this`balances, chain`txL1Cost
      ensures Valid()
      ensures balances == if tx.deposit && error.TxError? then Credit(snapshot, tx.caller, tx.mint) else snapshot
    {
      balances := snapshot;
      if tx.deposit && error.TxError? {
        balances := Credit(balances, tx.caller, tx.mint);
      }
      chain.ClearTxL1Cost();
    }

    /** A non-deposit transaction up to `execution_result`; `None` when some step returned an error. */
    method Settle(call: Call) returns (receipt: Option<Flow>)
      requires Valid() && call.gas.limit == call.tx.gasLimit && call.tx.envelope.Some? && !call.tx.deposit
      modifies this`balances, chain
      ensures Loaded()
      ensures receipt.Some? ==> Accounted(call, old(balances), receipt, balances)
      ensures receipt.None? ==> Accounted(call, old(balances), receipt, old(balances))
    {
      hide L1Cost, OperatorFee, TryFetch, SatAdd, Credit, Debit, OperatorFeeCharge, OperatorFeeRefund;
      hide Rewarded, Settled, Short, Balance;
      ghost var before := balances;
      var charged := DeductCaller(call);
      if charged.Err? || call.fate.ExecutionFails? { return None; }
      ghost var debited := balances;
      balances := call.execution(balances);
      var refunded := ReimburseCaller(call);
      ghost var credited := balances;
      var paid := RewardBeneficiary(call);
      if paid.Err? || call.fate.ContextFails? { return None; }
      var flow := Flow(charged.value, refunded, paid.value.0, paid.value.1);
      SettledInSteps(before, debited, credited, balances, call, flow);
      receipt := Some(flow);
    }

    /** A deposit: minted before it runs, never charged or paid out, and on a post-Regolith halt rolled back to its
        mint. */
    method TransactDeposit(call: Call)
      requires Valid() && call.tx.deposit && !call.fate.Rejected?
      modifies this`balances, chain
      ensures Valid()
      ensures balances == Deposited(old(balances), call, specOf(call.block))
    {
      hide Credit, Debit;
      var snapshot := balances;
      balances := Debit(Credit(balances, call.tx.caller, call.tx.mint), call.tx.caller, call.m.upfront);
      if call.fate.LoadFails? || call.fate.ExecutionFails? || call.fate.PaymentFails? || call.fate.ContextFails? {
        CatchError(call.tx, OtherError, snapshot);
        return;
      }
      balances := Credit(call.execution(balances), call.tx.caller, call.m.reimbursed);
      if call.fate.Halts? && EnabledIn(specOf(call.block), Regolith) {
        CatchError(call.tx, TxError, snapshot);
        return;
      }
      chain.ClearTxL1Cost();
    }

    /** One transaction from validation to the end, on every path. The receipt is what a settled
        non-deposit transaction moved. */
    method Transact(call: Call) returns (receipt: Option<Flow>)
      requires Valid() && call.gas.limit == call.tx.gasLimit
      modifies this`balances, chain
      ensures Valid() && Accounted(call, old(balances), receipt, balances)
      ensures call.fate.Rejected? ==> receipt.None?
    {
      hide Settled, Flows, TryFetch, Credit, Debit, Short, Balance;
      receipt := None;
      var snapshot := balances;
      if call.fate.Rejected? || (!call.tx.deposit && call.tx.envelope.None?) {
        CatchError(call.tx, TxError, snapshot);
      } else if call.tx.deposit {
        TransactDeposit(call);
      } else {
        receipt := Settle(call);
        if receipt.None? {
          CatchError(call.tx, OtherError, snapshot);
        } else {
          chain.ClearTxL1Cost();
        }
      }
    }

    /** Every transaction of a run accounts for the step from its ledger to the next. */
    ghost predicate AllAccounted(calls: seq<Call>, receipts: seq<Option<Flow>>, ledgers: seq<Balances>) {
      && |receipts| == |calls| && |ledgers| == |calls| + 1
      && forall i :: 0 <= i < |calls| ==> Accounted(calls[i], ledgers[i], receipts[i], ledgers[i + 1])
    }

    /** Any sequence of transactions over any blocks, with any failures on the way. `ledgers` are the balances
        before each of them and at the end. */
    method TransactAll(calls: seq<Call>) returns (receipts: seq<Option<Flow>>, ghost ledgers: seq<Balances>)
      requires Valid() && forall i :: 0 <= i < |calls| ==> calls[i].gas.limit == calls[i].tx.gasLimit
      modifies this`balances, chain
      ensures Valid() && AllAccounted(calls, receipts, ledgers)
      ensures ledgers[0] == old(balances) && ledgers[|calls|] == balances
    {
      hide Accounted;
      receipts, ledgers := [], [balances];
      for i := 0 to |calls|
        invariant Valid() && |receipts| == i && |ledgers| == i + 1 && ledgers[0] == old(balances) &&
          ledgers[i] == balances
        invariant forall j :: 0 <= j < i ==> Accounted(calls[j], ledgers[j], receipts[j], ledgers[j + 1])
      {
        var receipt := Transact(calls[i]);
        receipts, ledgers := receipts + [receipt], ledgers + [balances];
      }
    }
  }

  /** Fees of a chargeable transaction, priced with fetched info, balance. */
  lemma FetchedFeesConserved(storage: Storage, block: nat, envelope: seq<byte>, gas: Gas, spec: OpSpec)
    requires Chargeable(envelope)
    ensures Conserved(Flows(TryFetch(storage, block, spec), envelope, gas, spec, false))
  {
    FeesConservedExactly(TryFetch(storage, block, spec), envelope, gas, spec, false);
  }

  // ----- Supply -----

  ghost function Supply(b: Balances): nat
    decreases |b|
  {
    if b == map[] then 0 else var who :| who in b; b[who] + Supply(b - {who})
  }

  lemma {:induction false} SupplyWithout(b: Balances, who: nat)
    requires who in b
    ensures Supply(b) == b[who] + Supply(b - {who})
    decreases |b|
  {
    var first :| first in b && Supply(b) == b[first] + Supply(b - {first});
    if first != who {
      SupplyWithout(b - {first}, who);
      SupplyWithout(b - {who}, first);
      assert b - {first} - {who} == b - {who} - {first};
    }
  }

  lemma SupplySet(b: Balances, who: nat, amount: nat)
    ensures Supply(b[who := amount]) + Balance(b, who) == Supply(b) + amount
  {
    SupplyWithout(b[who := amount], who);
    if who in b {
      SupplyWithout(b, who);
      assert b[who := amount] - {who} == b - {who};
    } else {
      assert b[who := amount] - {who} == b;
    }
  }

  lemma CreditSupply(b: Balances, who: nat, amount: nat)
    ensures Supply(Credit(b, who, amount)) == Supply(b) + amount
  {
    hide Supply;
    SupplySet(b, who, Balance(b, who) + amount);
  }

  lemma DebitSupply(b: Balances, who: nat, amount: nat)
    requires amount <= Balance(b, who)
    ensures Supply(Debit(b, who, amount)) + amount == Supply(b)
  {
    hide Supply;
    SupplySet(b, who, Balance(b, who) - amount);
  }

  lemma RewardedSupply(b: Balances, m: Mainnet, l1: nat, operator: nat)
    ensures Supply(Rewarded(b, m, l1, operator)) == Supply(b) + m.tip + l1 + m.baseFee + operator
  {
    hide Supply, Credit;
    var tipped := Credit(b, m.beneficiary, m.tip);
    var paid := Credit(tipped, L1_FEE_RECIPIENT, l1);
    CreditSupply(b, m.beneficiary, m.tip);
    CreditSupply(tipped, L1_FEE_RECIPIENT, l1);
    CreditSupply(paid, BASE_FEE_RECIPIENT, m.baseFee);
    CreditSupply(Credit(paid, BASE_FEE_RECIPIENT, m.baseFee), OPERATOR_FEE_RECIPIENT, operator);
  }

  /** Running the transaction moves balances without creating or destroying any. */
  ghost predicate Preserves(execution: Balances -> Balances) {
    forall b: Balances :: Supply(execution(b)) == Supply(b)
  }

  lemma ExecutionSupply(execution: Balances -> Balances, b: Balances)
    requires Preserves(execution)
    ensures Supply(execution(b)) == Supply(b)
  {
  }

  lemma SettledSupply(b: Balances, call: Call, flow: Flow)
    requires flow.charged + call.m.upfront <= Balance(b, call.tx.caller) && Preserves(call.execution)
    ensures Supply(Settled(b, call, flow)) + flow.charged + call.m.upfront ==
      Supply(b) + call.m.reimbursed + flow.refunded + call.m.tip + flow.l1Paid + call.m.baseFee + flow.operatorPaid
  {
    hide Supply, Rewarded, Credit, Debit, Balance;
    var charged := Debit(b, call.tx.caller, flow.charged + call.m.upfront);
    var reimbursed := Credit(call.execution(charged), call.tx.caller, call.m.reimbursed + flow.refunded);
    DebitSupply(b, call.tx.caller, flow.charged + call.m.upfront);
    ExecutionSupply(call.execution, charged);
    CreditSupply(call.execution(charged), call.tx.caller, call.m.reimbursed + flow.refunded);
    RewardedSupply(reimbursed, call.m, flow.l1Paid, flow.operatorPaid);
  }

  /** A settlement creates or destroys value beyond the mainnet amounts exactly when its fee flow does not balance. */
  lemma SettlementKeepsSupply(b: Balances, call: Call, flow: Flow)
    requires flow.charged + call.m.upfront <= Balance(b, call.tx.caller) && Preserves(call.execution)
    ensures Conserved(flow) <==>
      Supply(Settled(b, call, flow)) + call.m.upfront == Supply(b) + call.m.reimbursed + call.m.tip + call.m.baseFee
  {
    hide Supply, Settled, Balance, Preserves;
    SettledSupply(b, call, flow);
  }

  /** The mainnet part balances by itself: the upfront fee is what is reimbursed, tipped and burnt to the base fee
      vault, and a deposit's gas is free. */
  predicate MainnetBalances(call: Call) {
    if call.tx.deposit then call.m.upfront == 0 && call.m.reimbursed == 0
    else call.m.upfront == call.m.reimbursed + call.m.tip + call.m.baseFee
  }

  /** The mint a deposit leaves behind. */
  function Minted(call: Call): nat {
    if call.tx.deposit && !DepositLost(call.fate) then call.tx.mint else 0
  }

  function AllMinted(calls: seq<Call>): nat {
    if calls == [] then 0 else AllMinted(calls[..|calls| - 1]) + Minted(calls[|calls| - 1])
  }

  lemma DepositSupply(b: Balances, call: Call, spec: OpSpec)
    requires call.tx.deposit && MainnetBalances(call) && Preserves(call.execution)
    ensures Supply(Deposited(b, call, spec)) == Supply(b) + Minted(call)
  {
    hide Supply, Credit, Debit, Balance, Preserves;
    var minted := Credit(b, call.tx.caller, call.tx.mint);
    CreditSupply(b, call.tx.caller, call.tx.mint);
    var spent := Debit(minted, call.tx.caller, 0);
    DebitSupply(minted, call.tx.caller, 0);
    ExecutionSupply(call.execution, spent);
    CreditSupply(call.execution(spent), call.tx.caller, 0);
  }

  /** One transaction changes the supply by its mint exactly when the fees it moved, if any, balance. */
  lemma TransactionSupply(evm: Evm, call: Call, before: Balances, receipt: Option<Flow>, after: Balances)
    requires evm.Accounted(call, before, receipt, after) && MainnetBalances(call) && Preserves(call.execution)
    ensures Supply(after) == Supply(before) + Minted(call) <==> (receipt.Some? ==> Conserved(receipt.value))
  {
    hide Supply, Settled, Deposited, Flows, TryFetch, Conserved, Preserves;
    if call.tx.deposit {
      DepositSupply(before, call, evm.specOf(call.block));
    } else if receipt.Some? {
      SettlementKeepsSupply(before, call, receipt.value);
    }
  }

  /** With charging on and chargeable envelopes, a whole run of transactions, settled or failed, changes the supply
      by exactly the mints of the deposits it kept. */
  lemma {:induction false} RunKeepsSupply(
    evm: Evm, calls: seq<Call>, receipts: seq<Option<Flow>>, ledgers: seq<Balances>)
    requires evm.AllAccounted(calls, receipts, ledgers) && !evm.feeChargeDisabled
    requires forall i :: 0 <= i < |calls| ==> MainnetBalances(calls[i]) && Preserves(calls[i].execution)
    requires forall i :: 0 <= i < |calls| && !calls[i].tx.deposit && calls[i].tx.envelope.Some? ==>
      Chargeable(calls[i].tx.envelope.value)
    ensures Supply(ledgers[|calls|]) == Supply(ledgers[0]) + AllMinted(calls)
    decreases |calls|
  {
    hide Supply, MainnetBalances, Preserves, Conserved, Flows, TryFetch, Minted, Chargeable, Settled, Deposited;
    if calls != [] {
      var n := |calls| - 1;
      assert evm.AllAccounted(calls[..n], receipts[..n], ledgers[..n + 1]) by {
        assert forall i :: 0 <= i < n ==> evm.Accounted(calls[i], ledgers[i], receipts[i], ledgers[i + 1]);
      }
      RunKeepsSupply(evm, calls[..n], receipts[..n], ledgers[..n + 1]);
      var call := calls[n];
      assert evm.Accounted(call, ledgers[n], receipts[n], ledgers[n + 1]);
      if receipts[n].Some? {
        FetchedFeesConserved(evm.storageOf(call.block), call.block, call.tx.envelope.value, call.gas,
          evm.specOf(call.block));
      }
      TransactionSupply(evm, call, ledgers[n], receipts[n], ledgers[n + 1]);
    }
  }
}
