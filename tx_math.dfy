/** Transaction size and fee estimates (django/finances/tx_math.py): sizes of
    Bitcoin's CompactSize integers and script pushes, per-input (base,
    witness) sizes, and the weight and virtual size of a whole transaction
    as defined in BIP 141 ("Transaction size calculations"). */
module TxMath {
  import opened Wrappers
  import Rationals

  const P2PKH_IN_SIZE := 148
  const P2PKH_OUT_SIZE := 34
  const P2SH_OUT_SIZE := 32
  const P2SH_P2WPKH_OUT_SIZE := 32
  const P2SH_P2WSH_OUT_SIZE := 32
  const P2WPKH_OUT_SIZE := 31
  const P2WSH_OUT_SIZE := 43
  const P2TR_OUT_SIZE := 43
  const PUBKEY_SIZE := 33
  const SIGNATURE_SIZE := 72

  /** `get_size_of_var_int`: the length of a CompactSize integer. */
  function VarIntSize(length: int): (size: int)
    ensures size == 1 || size == 3 || size == 5 || size == 9
    ensures size == 1 <==> length <= 252
    ensures size == 3 <==> 252 < length <= 0xffff
    ensures size == 5 <==> 0xffff < length <= 0xffff_ffff
    ensures size == 9 <==> length > 0xffff_ffff
  {
    if length <= 252 then 1
    else if length <= 0xffff then 3
    else if length <= 0xffff_ffff then 5
    else 9
  }

  lemma VarIntSizeMonotone(a: int, b: int)
    requires a <= b
    ensures VarIntSize(a) <= VarIntSize(b)
  {
  }

  /** `get_size_of_script_length_element`: the opcode bytes that push a
      script of the given length; scripts over 2^32 - 1 bytes raise. */
  function ScriptLengthElementSize(length: int): (r: Result<int, string>)
    ensures r.Err? <==> length > 4294967295
    ensures r.Ok? && length < 75 ==> r.value == 1
    ensures r.Ok? && 75 <= length <= 255 ==> r.value == 2
    ensures r.Ok? && 255 < length <= 65535 ==> r.value == 3
    ensures r.Ok? && 65535 < length ==> r.value == 5
  {
    if length < 75 then Ok(1)
    else if length <= 255 then Ok(2)
    else if length <= 65535 then Ok(3)
    else if length <= 4294967295 then Ok(5)
    else Err("Script too large")
  }

  lemma ScriptLengthElementMonotone(a: int, b: int)
    requires a <= b && ScriptLengthElementSize(b).Ok?
    ensures ScriptLengthElementSize(a).Ok? && ScriptLengthElementSize(a).value <= ScriptLengthElementSize(b).value
  {
  }

  /** One input of the transaction: its script type and, for multisig, m of n
      (both 0 when the caller gives none). */
  datatype TxInput = TxInput(script: string, m: int, n: int)

  datatype Sizes = Sizes(base: int, witnessBytes: int)

  /** The multisig redeem (or witness) script: OP_m, n pushed keys, OP_n,
      OP_CHECKMULTISIG. */
  function MultisigScriptSize(n: int): int { 1 + n * (1 + PUBKEY_SIZE) + 1 + 1 }

  function P2shInputSize(m: int, n: int): Result<Sizes, string> {
    var redeem := MultisigScriptSize(n);
    match ScriptLengthElementSize(redeem)
    case Err(e) => Err(e)
    case Ok(push) =>
      var scriptSig := 1 + m * (1 + SIGNATURE_SIZE) + push + redeem;
      Ok(Sizes(32 + 4 + VarIntSize(scriptSig) + scriptSig + 4, 0))
  }

  function P2wshInputSize(m: int, n: int): Sizes {
    var witnessScript := MultisigScriptSize(n);
    var items := 1 + m + 1;
    Sizes(32 + 4 + 1 + 4,
          VarIntSize(items) + 1 + m * (1 + SIGNATURE_SIZE) + VarIntSize(witnessScript) + witnessScript)
  }

  predicate KnownScript(script: string) {
    script in {"P2PKH", "P2SH", "P2SH-P2WPKH", "P2WPKH", "P2WSH", "P2TR"}
  }

  /** `get_input_size`: (base, witness) bytes of one input. */
  function InputSize(input: TxInput): (r: Result<Sizes, string>)
    ensures r.Err? <==> !KnownScript(input.script)
                        || (input.script == "P2SH" && MultisigScriptSize(input.n) > 4294967295)
  {
    match input.script
    case "P2PKH" => Ok(Sizes(P2PKH_IN_SIZE, 0))
    case "P2SH" => P2shInputSize(input.m, input.n)
    case "P2SH-P2WPKH" => Ok(Sizes(32 + 4 + 1 + 23 + 4, 107))
    case "P2WPKH" => Ok(Sizes(32 + 4 + 1 + 4, 107))
    case "P2WSH" => Ok(P2wshInputSize(input.m, input.n))
    case "P2TR" => Ok(Sizes(32 + 4 + 1 + 4, 65))
    case _ => Err("Unsupported input script type: " + input.script)
  }

  /** The single-signature types have the fixed sizes of the table; any
      other name raises. */
  lemma InputSizeTable(m: int, n: int, other: string)
    requires !KnownScript(other)
    ensures InputSize(TxInput("P2PKH", m, n)) == Ok(Sizes(148, 0))
    ensures InputSize(TxInput("P2SH-P2WPKH", m, n)) == Ok(Sizes(64, 107))
    ensures InputSize(TxInput("P2WPKH", m, n)) == Ok(Sizes(41, 107))
    ensures InputSize(TxInput("P2TR", m, n)) == Ok(Sizes(41, 65))
    ensures InputSize(TxInput(other, m, n)).Err?
  {
  }

  /** A P2SH input has no witness and grows with m and with n. */
  lemma P2shMonotone(m: int, n: int, m': int, n': int)
    requires 0 <= m <= m' && 0 <= n <= n'
    requires P2shInputSize(m', n').Ok?
    ensures P2shInputSize(m, n).Ok?
    ensures P2shInputSize(m, n).value.witnessBytes == 0 && P2shInputSize(m', n').value.witnessBytes == 0
    ensures P2shInputSize(m, n).value.base <= P2shInputSize(m', n').value.base
  {
    var r, r' := MultisigScriptSize(n), MultisigScriptSize(n');
    assert r <= r';
    ScriptLengthElementMonotone(r, r');
    var push, push' := ScriptLengthElementSize(r).value, ScriptLengthElementSize(r').value;
    var sig, sig' := 1 + m * (1 + SIGNATURE_SIZE) + push + r, 1 + m' * (1 + SIGNATURE_SIZE) + push' + r';
    assert m * (1 + SIGNATURE_SIZE) <= m' * (1 + SIGNATURE_SIZE);
    VarIntSizeMonotone(sig, sig');
  }

  /** A P2WSH input always has base size 41 and its witness grows with m
      and with n. */
  lemma P2wshMonotone(m: int, n: int, m': int, n': int)
    requires 0 <= m <= m' && 0 <= n <= n'
    ensures P2wshInputSize(m, n).base == 41 && P2wshInputSize(m', n').base == 41
    ensures P2wshInputSize(m, n).witnessBytes <= P2wshInputSize(m', n').witnessBytes
  {
    VarIntSizeMonotone(1 + m + 1, 1 + m' + 1);
    VarIntSizeMonotone(MultisigScriptSize(n), MultisigScriptSize(n'));
    assert m * (1 + SIGNATURE_SIZE) <= m' * (1 + SIGNATURE_SIZE);
    assert n * (1 + PUBKEY_SIZE) <= n' * (1 + PUBKEY_SIZE);
  }

  /** Input types that carry witness data, so that the transaction needs the
      segwit marker and flag. */
  predicate IsSegwit(input: TxInput) {
    input.script in {"P2SH-P2WPKH", "P2WPKH", "P2WSH", "P2TR"}
  }

  predicate HasWitness(inputs: seq<TxInput>) {
    exists i :: 0 <= i < |inputs| && IsSegwit(inputs[i])
  }

  /** Summed (base, witness) of the inputs, or the error of the first input
      that raises. */
  function InputTotals(inputs: seq<TxInput>): Result<Sizes, string>
  {
    if inputs == [] then Ok(Sizes(0, 0))
    else
      match InputTotals(inputs[..|inputs| - 1])
      case Err(e) => Err(e)
      case Ok(t) =>
        match InputSize(inputs[|inputs| - 1])
        case Err(e) => Err(e)
        case Ok(s) => Ok(Sizes(t.base + s.base, t.witnessBytes + s.witnessBytes))
  }

  /** The output counts, as the items of a dict from output type to count. */
  type OutputCounts = seq<(string, int)>

  /** `output_counts.get(key, 0)`. */
  function CountOf(outputs: OutputCounts, key: string): int {
    if outputs == [] then 0
    else if outputs[0].0 == key then outputs[0].1
    else CountOf(outputs[1..], key)
  }

  /** `sum(output_counts.values())`: every count, known type or not. */
  function TotalCount(outputs: OutputCounts): int {
    if outputs == [] then 0 else outputs[0].1 + TotalCount(outputs[1..])
  }

  function OutputSize(outputs: OutputCounts): int {
    P2PKH_OUT_SIZE * CountOf(outputs, "p2pkh")
    + P2SH_OUT_SIZE * CountOf(outputs, "p2sh")
    + P2SH_P2WPKH_OUT_SIZE * CountOf(outputs, "p2sh_p2wpkh")
    + P2SH_P2WSH_OUT_SIZE * CountOf(outputs, "p2sh_p2wsh")
    + P2WPKH_OUT_SIZE * CountOf(outputs, "p2wpkh")
    + P2WSH_OUT_SIZE * CountOf(outputs, "p2wsh")
    + P2TR_OUT_SIZE * CountOf(outputs, "p2tr")
  }

  /** Version, the two counts and the lock time. */
  function Overhead(inputCount: int, outputCount: int): int {
    4 + VarIntSize(inputCount) + VarIntSize(outputCount) + 4
  }

  /** Python's `round` of the exact rational num / den: the nearest integer,
      ties to the even one. */
  function RoundHalfEven(num: int, den: int): (r: int)
    requires den > 0
    ensures 2 * (num - r * den) <= den && -den <= 2 * (num - r * den)
    ensures 2 * (num - r * den) == den || 2 * (num - r * den) == -den ==> r % 2 == 0
  {
    var q, rem := num / den, num % den;
    if 2 * rem < den then q
    else if 2 * rem > den then q + 1
    else if q % 2 == 0 then q else q + 1
  }

  /** Rounding an exact integer gives it back. */
  lemma RoundOfWhole(k: int, den: int)
    requires den > 0
    ensures RoundHalfEven(k * den, den) == k
  {
    DivOfMultiple(k, den);
  }

  /** A multiple of den divides exactly. */
  lemma DivOfMultiple(k: int, den: int)
    requires den > 0
    ensures (k * den) / den == k && (k * den) % den == 0
  {
    var q, rem := (k * den) / den, (k * den) % den;
    assert den * (k - q) == rem by {
      assert k * den == den * q + rem;
      Distribute(den, k, q);
    }
    if k - q >= 1 {
      MulAtLeast(k - q, den);
    } else if k - q <= -1 {
      MulAtLeast(q - k, den);
    }
  }

  lemma Distribute(a: int, b: int, c: int)
    ensures a * (b - c) == a * b - a * c && b * a == a * b
  {
  }

  lemma MulAtLeast(a: int, b: int)
    requires a >= 1 && b > 0
    ensures a * b >= b
  {
  }

  datatype TxSize = TxSize(txBytes: int, txVBytes: int, txWeight: int)

  /** The transaction's base size: overhead, inputs' base and outputs. */
  function BaseSize(inputs: seq<TxInput>, outputs: OutputCounts, totals: Sizes): int {
    Overhead(|inputs|, TotalCount(outputs)) + totals.base + OutputSize(outputs)
  }

  function WitnessSize(inputs: seq<TxInput>, totals: Sizes): int {
    (if HasWitness(inputs) then 2 else 0) + totals.witnessBytes
  }

  /** The value `calculate_transaction_size` returns. */
  function TransactionSize(inputs: seq<TxInput>, outputs: OutputCounts): Result<TxSize, string> {
    match InputTotals(inputs)
    case Err(e) => Err(e)
    case Ok(t) =>
      var base := BaseSize(inputs, outputs, t);
      var weight := base * 4 + WitnessSize(inputs, t);
      Ok(TxSize(RoundHalfEven(base * 4 + WitnessSize(inputs, t), 4), RoundHalfEven(weight, 4), weight))
  }

  /** `calculate_transaction_size`: the marker check, then the inputs summed
      one by one, then the outputs. */
  method CalculateTransactionSize(inputs: seq<TxInput>, outputs: OutputCounts) returns (r: Result<TxSize, string>)
    ensures r == TransactionSize(inputs, outputs)
  {
    var totalBase, totalWitness := 0, 0;
    var hasWitness := HasWitness(inputs);
    var k := 0;
    if hasWitness {
      totalWitness := totalWitness + 2;
    }
    while k < |inputs|
      invariant 0 <= k <= |inputs|
      invariant InputTotals(inputs[..k]).Ok?
      invariant totalBase == InputTotals(inputs[..k]).value.base
      invariant totalWitness == (if hasWitness then 2 else 0) + InputTotals(inputs[..k]).value.witnessBytes
    {
      assert inputs[..k + 1][..k] == inputs[..k];
      match InputSize(inputs[k])
      case Err(e) =>
        InputTotalsErrorSticks(inputs, k + 1);
        return Err(e);
      case Ok(s) =>
        totalBase := totalBase + s.base;
        totalWitness := totalWitness + s.witnessBytes;
      k := k + 1;
    }
    assert inputs[..|inputs|] == inputs;
    var outputSize := OutputSize(outputs);
    var baseSize := Overhead(|inputs|, TotalCount(outputs)) + totalBase + outputSize;
    var weight := baseSize * 4 + totalWitness;
    r := Ok(TxSize(RoundHalfEven(baseSize * 4 + totalWitness, 4), RoundHalfEven(weight, 4), weight));
  }

  /** Once a prefix of the inputs raises, the whole list raises with the same error. */
  lemma {:induction false} InputTotalsErrorSticks(inputs: seq<TxInput>, k: nat)
    requires k <= |inputs| && InputTotals(inputs[..k]).Err?
    ensures InputTotals(inputs) == InputTotals(inputs[..k])
    decreases |inputs| - k
  {
    if k < |inputs| {
      assert inputs[..k + 1][..k] == inputs[..k];
      InputTotalsErrorSticks(inputs, k + 1);
    } else {
      assert inputs[..k] == inputs;
    }
  }

  /** BIP 141: weight is four times the base size plus the witness bytes,
      i.e. base size * 3 + total size; txVBytes is the weight / 4 rounded,
      and txBytes (base plus a quarter of the witness) is the same number. */
  lemma WeightIsBip141(inputs: seq<TxInput>, outputs: OutputCounts)
    requires TransactionSize(inputs, outputs).Ok?
    ensures var t := InputTotals(inputs).value;
      var base := BaseSize(inputs, outputs, t);
      var total := base + WitnessSize(inputs, t);
      var r := TransactionSize(inputs, outputs).value;
      && r.txWeight == 4 * base + WitnessSize(inputs, t)
      && r.txWeight == 3 * base + total
      && r.txVBytes == RoundHalfEven(r.txWeight, 4)
      && r.txBytes == r.txVBytes
  {
  }

  /** The weight of a transaction counts the 2 bytes of the segwit marker
      and flag on top of four times its base size and its inputs' witness
      bytes exactly when one of its inputs is P2SH-P2WPKH, P2WPKH, P2WSH or
      P2TR. */
  lemma MarkerIffSegwit(inputs: seq<TxInput>, outputs: OutputCounts)
    requires TransactionSize(inputs, outputs).Ok?
    ensures var t := InputTotals(inputs).value;
      var segwit := exists i :: 0 <= i < |inputs| && inputs[i].script in {"P2SH-P2WPKH", "P2WPKH", "P2WSH", "P2TR"};
      TransactionSize(inputs, outputs).value.txWeight
        == 4 * BaseSize(inputs, outputs, t) + t.witnessBytes + (if segwit then 2 else 0)
  {
  }

  predicate NonNegativeMultisig(inputs: seq<TxInput>) {
    forall i :: 0 <= i < |inputs| ==> inputs[i].m >= 0 && inputs[i].n >= 0
  }

  lemma InputSizeNonNegative(input: TxInput)
    requires input.m >= 0 && input.n >= 0 && InputSize(input).Ok?
    ensures InputSize(input).value.base >= 0 && InputSize(input).value.witnessBytes >= 0
  {
  }

  /** Appending an input never makes the weight smaller (for non-negative
      multisig parameters). */
  lemma AddInputNeverDecreasesWeight(inputs: seq<TxInput>, input: TxInput, outputs: OutputCounts)
    requires NonNegativeMultisig(inputs) && input.m >= 0 && input.n >= 0
    requires TransactionSize(inputs + [input], outputs).Ok?
    ensures TransactionSize(inputs, outputs).Ok?
    ensures TransactionSize(inputs, outputs).value.txWeight <= TransactionSize(inputs + [input], outputs).value.txWeight
  {
    var more := inputs + [input];
    assert more[..|more| - 1] == inputs;
    InputSizeNonNegative(input);
    VarIntSizeMonotone(|inputs|, |more|);
    if HasWitness(inputs) {
      var i :| 0 <= i < |inputs| && IsSegwit(inputs[i]);
      assert more[i] == inputs[i];
    }
  }

  /** One more output of the named type. */
  function AddOutput(outputs: OutputCounts, key: string): OutputCounts {
    if outputs == [] then [(key, 1)]
    else if outputs[0].0 == key then [(key, outputs[0].1 + 1)] + outputs[1..]
    else [outputs[0]] + AddOutput(outputs[1..], key)
  }

  lemma {:induction false} AddOutputCounts(outputs: OutputCounts, key: string)
    ensures TotalCount(AddOutput(outputs, key)) == TotalCount(outputs) + 1
    ensures CountOf(AddOutput(outputs, key), key) == CountOf(outputs, key) + 1
    ensures forall other :: other != key ==> CountOf(AddOutput(outputs, key), other) == CountOf(outputs, other)
  {
    if outputs != [] && outputs[0].0 != key {
      AddOutputCounts(outputs[1..], key);
    }
  }

  /** Adding an output never makes the weight smaller. */
  lemma AddOutputNeverDecreasesWeight(inputs: seq<TxInput>, outputs: OutputCounts, key: string)
    requires TransactionSize(inputs, outputs).Ok?
    ensures TransactionSize(inputs, AddOutput(outputs, key)).Ok?
    ensures TransactionSize(inputs, outputs).value.txWeight <= TransactionSize(inputs, AddOutput(outputs, key)).value.txWeight
  {
    AddOutputCounts(outputs, key);
    OutputSizeGrows(outputs, key);
    VarIntSizeMonotone(TotalCount(outputs), TotalCount(outputs) + 1);
  }

  lemma OutputSizeGrows(outputs: OutputCounts, key: string)
    ensures OutputSize(AddOutput(outputs, key)) >= OutputSize(outputs)
  {
    AddOutputCounts(outputs, key);
    assert forall n :: CountOf(AddOutput(outputs, key), n) >= CountOf(outputs, n);
  }

  /** The first two cases of the module's own test table. */
  lemma ExampleTransactions()
    ensures TransactionSize([TxInput("P2PKH", 0, 0)], [("p2pkh", 1)]) == Ok(TxSize(192, 192, 768))
    ensures TransactionSize([TxInput("P2WPKH", 0, 0), TxInput("P2WPKH", 0, 0)], [("p2wpkh", 2)])
            == Ok(TxSize(208, 208, 832))
  {
    var one := [TxInput("P2PKH", 0, 0)];
    assert one[..0] == [];
    assert !HasWitness(one);
    var two := [TxInput("P2WPKH", 0, 0), TxInput("P2WPKH", 0, 0)];
    assert two[..1][..0] == [];
    assert two[..1] == [TxInput("P2WPKH", 0, 0)];
    assert IsSegwit(two[0]);
    RoundOfWhole(192, 4);
    RoundOfWhole(208, 4);
  }

  /** `calculate_fee`: the virtual size times the fee rate, rounded half to even. */
  function CalculateFee(vbytes: int, rate: Rationals.Rat): (fee: int)
    ensures var exact := vbytes * rate.num;
      && 2 * (exact - fee * rate.den) <= rate.den && -rate.den <= 2 * (exact - fee * rate.den)
    // a tie, half-way between two whole fees, goes to the even one
    ensures 2 * (vbytes * rate.num - fee * rate.den) == rate.den ==> fee % 2 == 0
    ensures 2 * (vbytes * rate.num - fee * rate.den) == -rate.den ==> fee % 2 == 0
  {
    RoundHalfEven(vbytes * rate.num, rate.den)
  }

  /** With a whole-number fee rate the fee is exactly vbytes times the rate. */
  lemma FeeAtWholeRate(vbytes: int, rate: int)
    ensures CalculateFee(vbytes, Rationals.FromInt(rate)) == vbytes * rate
  {
    RoundOfWhole(vbytes * rate, 1);
  }
}
