/** The Electrum check-up of an output label: whether the label's output is
    still unspent, read off the transaction and the address's unspent list
    an Electrum server returns, and written into the output's OutputStat.
    The two server calls are not part of this model: their answers are
    parameters. */
module Electrum {
  import opened Wrappers
  import opened Text
  import opened FinanceModels

  /** `is_valid_output_ref`: a reference of the form `txid:vout`, as far as
      the presence of a ':' tells. */
  function IsValidOutputRef(ref: Option<string>): (b: bool)
    ensures b <==> ref.Some? && ':' in ref.value
  {
    if ref.None? || ref.value == "" then false
    else ':' in ref.value
  }

  /** A valid reference is exactly one that `split(":")` cuts into at least
      two pieces. */
  lemma ValidRefSplits(ref: string)
    ensures IsValidOutputRef(Some(ref)) <==> |Split(ref, ':')| >= 2
  {
    SplitCount(ref, ':');
    assert ':' in ref <==> multiset(ref)[':'] > 0;
  }

  const DefaultHostname: string := "electrum.emzy.de"
  const DefaultPorts: string := "s50002"

  /** The server the check-up talks to. */
  datatype Server = Server(hostname: string, ports: string)

  /** The profile's Electrum server, with the defaults for empty settings. */
  function ServerOf(hostname: string, ports: string): (s: Server)
    ensures s.hostname != "" && s.ports != ""
    ensures hostname != "" ==> s.hostname == hostname
    ensures hostname == "" ==> s.hostname == DefaultHostname
    ensures ports != "" ==> s.ports == ports
    ensures ports == "" ==> s.ports == DefaultPorts
  {
    Server(if hostname == "" then DefaultHostname else hostname,
      if ports == "" then DefaultPorts else ports)
  }

  /** What the transaction lookup returns: the address of the output, its
      value in satoshis and the block time (0 when unknown). */
  datatype TxInfo = TxInfo(address: string, value: int, blocktime: int)

  /** One output of a transaction as the server describes it: its address
      and its value in satoshis. */
  datatype TxOut = TxOut(address: string, sats: int)

  /** The server's answer to the transaction lookup: nothing (no transaction,
      or an error response), or the transaction's outputs and its block time
      (0 when it has none or it is not a number). */
  datatype TxAnswer = NoTransaction | Transaction(vout: seq<TxOut>, blocktime: int)

  /** What `interact` gives back: nothing, an exception, or the output's
      address and value with the block time. */
  datatype Interaction = NothingBack | InteractRaised | Returned(info: TxInfo)

  /** `interact` for the output index text `index`: `int(index)` and the
      indexing of the outputs (negative indices count from the end, as in
      Python) raise when they fail, and nothing catches them. */
  function Interact(answer: TxAnswer, index: string): (r: Interaction)
    ensures r.NothingBack? <==> answer.NoTransaction?
    ensures r.InteractRaised? <==> (answer.Transaction? && (ParsePyInt(index).None?
      || !(-|answer.vout| <= ParsePyInt(index).value < |answer.vout|)))
    ensures r.Returned? ==> (answer.Transaction? && ParsePyInt(index).Some?
      && exists k :: (0 <= k < |answer.vout|
        && (k == ParsePyInt(index).value || k == ParsePyInt(index).value + |answer.vout|)
        && r.info == TxInfo(answer.vout[k].address, answer.vout[k].sats, answer.blocktime)))
  {
    match answer
    case NoTransaction => NothingBack
    case Transaction(vout, blocktime) =>
      match ParsePyInt(index)
      case None => InteractRaised
      case Some(k) =>
        if -|vout| <= k < |vout| then
          var j := if k < 0 then k + |vout| else k;
          Returned(TxInfo(vout[j].address, vout[j].sats, blocktime))
        else InteractRaised
  }

  /** One entry of the address's unspent list. */
  datatype Unspent = Unspent(txHash: string, txPos: int, height: int, value: int)

  /** The entry is the output `txHash:pos`, confirmed and of positive value. */
  predicate IsTheUtxo(u: Unspent, txHash: string, pos: int) {
    u.txHash == txHash && u.txPos == pos && u.height > 0 && u.value > 0
  }

  /** The index of the first entry that is the output, or None. */
  function FirstUtxo(unspents: seq<Unspent>, txHash: string, pos: int, from: nat := 0): (r: Option<nat>)
    requires from <= |unspents|
    ensures r.None? <==> forall i :: from <= i < |unspents| ==> !IsTheUtxo(unspents[i], txHash, pos)
    ensures r.Some? ==> (from <= r.value < |unspents| && IsTheUtxo(unspents[r.value], txHash, pos)
      && forall i :: from <= i < r.value ==> !IsTheUtxo(unspents[i], txHash, pos))
    decreases |unspents| - from
  {
    if from == |unspents| then None
    else if IsTheUtxo(unspents[from], txHash, pos) then Some(from)
    else FirstUtxo(unspents, txHash, pos, from + 1)
  }

  /** The outcome of the loop over the unspent list: `int(tx_pos)` raised,
      or the flag and the value and height of the entry found (0 and 0 when
      none was). */
  datatype Scan = ScanRaised | Scanned(unspentUtxo: bool, utxoValue: int, utxoHeight: int)

  /** The outcome of the loop, stated by the first matching entry. The vout
      text is only converted when an entry has the same transaction hash, so
      an unconvertible vout raises exactly when there is one. */
  function ScanOf(unspents: seq<Unspent>, txHash: string, txPos: string): (r: Scan)
    ensures r.ScanRaised? <==> ParsePyInt(txPos).None? && exists i :: 0 <= i < |unspents| && unspents[i].txHash == txHash
    ensures r.Scanned? && r.unspentUtxo ==> r.utxoValue > 0 && r.utxoHeight > 0
  {
    ScanWith(unspents, txHash, ParsePyInt(txPos))
  }

  /** The same outcome once `int(tx_pos)` is known to give `pos` or to raise
      (None). */
  function ScanWith(unspents: seq<Unspent>, txHash: string, pos: Option<int>): Scan {
    match pos
    case None =>
      if exists i | 0 <= i < |unspents| :: unspents[i].txHash == txHash then ScanRaised
      else Scanned(false, 0, 0)
    case Some(p) =>
      match FirstUtxo(unspents, txHash, p)
      case None => Scanned(false, 0, 0)
      case Some(i) => Scanned(true, unspents[i].value, unspents[i].height)
  }

  /** The loop of `checkup_label` over the unspent list. */
  method FindUnspent(unspents: seq<Unspent>, txHash: string, txPos: string) returns (r: Scan)
    ensures r == ScanOf(unspents, txHash, txPos)
  {
    // `int(tx_pos)` does not change between entries; it only matters (and
    // only raises) once an entry with the same hash is reached
    r := ScanUnspent(unspents, txHash, ParsePyInt(txPos));
  }

  /** The loop itself, with its `break`, once `int(tx_pos)` is known. */
  method ScanUnspent(unspents: seq<Unspent>, txHash: string, pos: Option<int>) returns (r: Scan)
    ensures r == ScanWith(unspents, txHash, pos)
  {
    var unspentUtxo := false;
    var utxoValue := 0;
    var utxoHeight := 0;
    var i := 0;
    while i < |unspents|
      invariant 0 <= i <= |unspents|
      invariant pos.None? ==> forall j :: 0 <= j < i ==> unspents[j].txHash != txHash
      invariant pos.Some? ==> forall j :: 0 <= j < i ==> !IsTheUtxo(unspents[j], txHash, pos.value)
      invariant !unspentUtxo && utxoValue == 0 && utxoHeight == 0
    {
      var u := unspents[i];
      if u.txHash == txHash {
        if pos.None? {
          return ScanRaised;
        }
        if u.txPos == pos.value && u.height > 0 && u.value > 0 {
          unspentUtxo := true;
          utxoValue := u.value;
          utxoHeight := u.height;
          break;
        }
      }
      i := i + 1;
    }
    return Scanned(unspentUtxo, utxoValue, utxoHeight);
  }

  /** The fields `checkup_label` assigns to the OutputStat before saving it. */
  function Updated(o: OutputStat, network: string, utxoHeight: int, blocktime: int,
      utxoValue: int, txValue: int, unspentUtxo: bool): (r: OutputStat)
    ensures r.typeRefHash == o.typeRefHash && r.network == network
    // the spent flag is always known afterwards
    ensures r.spent == Some(!unspentUtxo)
    // height and time are only ever replaced by a known (non-zero) one
    ensures r.confirmedAtBlockHeight == (if utxoHeight != 0 then utxoHeight else o.confirmedAtBlockHeight)
    ensures r.confirmedAtBlockTime == (if blocktime != 0 then blocktime else o.confirmedAtBlockTime)
    // the value of the unspent entry wins over the value in the transaction
    ensures r.value == (if utxoValue != 0 then utxoValue else if txValue != 0 then txValue else o.value)
  {
    OutputStat(o.typeRefHash, Some(!unspentUtxo),
      if utxoValue != 0 then utxoValue else if txValue != 0 then txValue else o.value,
      if utxoHeight != 0 then utxoHeight else o.confirmedAtBlockHeight,
      if blocktime != 0 then blocktime else o.confirmedAtBlockTime,
      network)
  }

  /** The label `checkup_label` looks at. */
  datatype CheckedLabel = CheckedLabel(labelType: string, ref: string, typeRefHash: string)

  /** The guard of the check-up: an output label with a valid reference whose
      output is not known to be spent. */
  predicate RunsCheckup(l: CheckedLabel, stat: OutputStat) {
    l.labelType == "output" && IsValidOutputRef(Some(l.ref)) && stat.spent != Some(true)
  }

  /** The OutputStat `checkup_label` creates when the label has none yet. */
  function NewStat(typeRefHash: string, network: string): OutputStat {
    OutputStat(typeRefHash, None, 0, 0, 0, network)
  }

  predicate IsStatOf(o: OutputStat, typeRefHash: string, network: string) {
    o.typeRefHash == typeRefHash && o.network == network
  }

  /** `.filter(type_ref_hash=..., network=...).last()`: the index of the last
      matching row, the rows being in primary-key order. */
  function LastStat(rows: seq<OutputStat>, typeRefHash: string, network: string, upTo: nat): (r: Option<nat>)
    requires upTo <= |rows|
    ensures r.None? <==> forall i :: 0 <= i < upTo ==> !IsStatOf(rows[i], typeRefHash, network)
    ensures r.Some? ==> (r.value < upTo && IsStatOf(rows[r.value], typeRefHash, network)
      && forall i :: r.value < i < upTo ==> !IsStatOf(rows[i], typeRefHash, network))
  {
    if upTo == 0 then None
    else if IsStatOf(rows[upTo - 1], typeRefHash, network) then Some(upTo - 1)
    else LastStat(rows, typeRefHash, network, upTo - 1)
  }

  /** How a check-up ends: not run, aborted by an exception, no transaction from the
      server (nothing is saved), or the OutputStat saved. */
  datatype Checkup = Skipped | Aborted | NoTx(server: Server) | Saved(server: Server, stat: OutputStat)

  /** The answers the Electrum server gives: the transaction and the unspent
      list of the output's address (None when the call returns nothing,
      which makes the loop raise). */
  datatype Answers = Answers(tx: TxAnswer, unspents: Option<seq<Unspent>>)

  /** The OutputStat of the label: the last matching row, or a new one. */
  function StatFor(rows: seq<OutputStat>, typeRefHash: string, network: string): (o: OutputStat)
    ensures IsStatOf(o, typeRefHash, network)
  {
    match LastStat(rows, typeRefHash, network, |rows|)
    case Some(k) => rows[k]
    case None => NewStat(typeRefHash, network)
  }

  /** `output.save()`: the row found is replaced, a new one is added last. */
  function SaveStat(rows: seq<OutputStat>, typeRefHash: string, network: string, o: OutputStat): seq<OutputStat> {
    match LastStat(rows, typeRefHash, network, |rows|)
    case Some(k) => rows[k := o]
    case None => rows + [o]
  }

  /** A saved OutputStat is the one found for the label afterwards. */
  lemma SavedStatIsFound(rows: seq<OutputStat>, typeRefHash: string, network: string, o: OutputStat)
    requires IsStatOf(o, typeRefHash, network)
    ensures StatFor(SaveStat(rows, typeRefHash, network, o), typeRefHash, network) == o
  {
    var after := SaveStat(rows, typeRefHash, network, o);
    var k := match LastStat(rows, typeRefHash, network, |rows|) case Some(k) => k case None => |rows|;
    assert after[k] == o;
    assert forall i :: k < i < |after| ==> after[i] == rows[i];
    assert LastStat(after, typeRefHash, network, |after|) == Some(k);
  }

  /** The steps of `checkup_label` once the label's OutputStat is at hand:
      the guard, the server, splitting the reference, the two server answers,
      the loop and the update. */
  function CheckupOutcome(stat: OutputStat, l: CheckedLabel, network: string,
      hostname: string, ports: string, answers: Answers): (c: Checkup)
    ensures c == Skipped <==> !RunsCheckup(l, stat)
    // `interact` raising on the output index ends the check-up
    ensures (RunsCheckup(l, stat) && l.typeRefHash != "" && |Split(l.ref, ':')| == 2
      && Interact(answers.tx, Split(l.ref, ':')[1]).InteractRaised?) ==> c == Aborted
    ensures c.NoTx? <==> (RunsCheckup(l, stat) && l.typeRefHash != "" && |Split(l.ref, ':')| == 2
      && answers.tx.NoTransaction?)
    ensures c.Saved? ==> |Split(l.ref, ':')| == 2 && Interact(answers.tx, Split(l.ref, ':')[1]).Returned?
    ensures c.Saved? ==> (c.stat.typeRefHash == stat.typeRefHash && c.stat.network == network
      && c.stat.spent.Some? && c.server == ServerOf(hostname, ports))
    // the unspent flag written is whether the unspent list holds the output
    // `txid:vout`, confirmed and with a positive value
    ensures c.Saved? ==> (|Split(l.ref, ':')| == 2 && answers.unspents.Some?
      && (c.stat.spent == Some(false) <==> (ParsePyInt(Split(l.ref, ':')[1]).Some?
        && exists i :: (0 <= i < |answers.unspents.value|
          && IsTheUtxo(answers.unspents.value[i], Split(l.ref, ':')[0], ParsePyInt(Split(l.ref, ':')[1]).value)))))
  {
    var parts := Split(l.ref, ':');
    if !RunsCheckup(l, stat) then Skipped
    else if l.typeRefHash == "" || |parts| != 2 then Aborted
    else match Interact(answers.tx, parts[1])
      case NothingBack => NoTx(ServerOf(hostname, ports))
      case InteractRaised => Aborted
      case Returned(tx) =>
        if answers.unspents.None? then Aborted
        else match ScanOf(answers.unspents.value, parts[0], parts[1])
          case ScanRaised => Aborted
          case Scanned(found, utxoValue, utxoHeight) =>
            Saved(ServerOf(hostname, ports), Updated(stat, network, utxoHeight, tx.blocktime, utxoValue, tx.value, found))
  }

  /** `checkup_label` on the OutputStat table `rows`: the outcome and the
      table afterwards. `labelId` 0 and `loopGiven` false stand for the
      falsy arguments that make it log and do nothing. */
  function CheckupOf(rows: seq<OutputStat>, labelId: int, loopGiven: bool, l: CheckedLabel,
      network: string, hostname: string, ports: string, answers: Answers): (Checkup, seq<OutputStat>)
  {
    if labelId == 0 || !loopGiven then (Skipped, rows)
    else
      var c := CheckupOutcome(StatFor(rows, l.typeRefHash, network), l, network, hostname, ports, answers);
      (c, if c.Saved? then SaveStat(rows, l.typeRefHash, network, c.stat) else rows)
  }

  /** A check-up touches only the label's own OutputStat: it replaces the last
      row of that output, or adds it when there is none, and leaves every
      other row as it was. */
  lemma CheckupFrame(rows: seq<OutputStat>, labelId: int, loopGiven: bool, l: CheckedLabel,
      network: string, hostname: string, ports: string, answers: Answers)
    ensures var (outcome, after) := CheckupOf(rows, labelId, loopGiven, l, network, hostname, ports, answers);
      (!outcome.Saved? ==> after == rows)
      && (outcome.Saved? ==> (IsStatOf(outcome.stat, l.typeRefHash, network)
        && |rows| <= |after| <= |rows| + 1
        && (forall i :: 0 <= i < |rows| && !IsStatOf(rows[i], l.typeRefHash, network) ==> after[i] == rows[i])
        && outcome.stat in after))
  {
    if labelId != 0 && loopGiven {
      var c := CheckupOutcome(StatFor(rows, l.typeRefHash, network), l, network, hostname, ports, answers);
      if c.Saved? {
        SaveStatFrame(rows, l.typeRefHash, network, c.stat);
      }
    }
  }

  /** Saving replaces only the last row of the output, or adds one. */
  lemma SaveStatFrame(rows: seq<OutputStat>, typeRefHash: string, network: string, o: OutputStat)
    ensures var after := SaveStat(rows, typeRefHash, network, o);
      |rows| <= |after| <= |rows| + 1
      && (forall i :: 0 <= i < |rows| && !IsStatOf(rows[i], typeRefHash, network) ==> after[i] == rows[i])
      && o in after
  {
    var after := SaveStat(rows, typeRefHash, network, o);
    match LastStat(rows, typeRefHash, network, |rows|)
    case Some(k) => assert after[k] == o;
    case None => assert after[|rows|] == o;
  }

  /** Once a check-up has saved the output as spent, the next check-up of the
      label does nothing, whatever the server answers. */
  lemma SpentIsFinal(rows: seq<OutputStat>, labelId: int, loopGiven: bool, l: CheckedLabel,
      network: string, hostname: string, ports: string, answers: Answers, later: Answers)
    requires var (outcome, _) := CheckupOf(rows, labelId, loopGiven, l, network, hostname, ports, answers);
      outcome.Saved? && outcome.stat.spent == Some(true)
    ensures var (_, after) := CheckupOf(rows, labelId, loopGiven, l, network, hostname, ports, answers);
      CheckupOf(after, labelId, loopGiven, l, network, hostname, ports, later) == (Skipped, after)
  {
    var (outcome, after) := CheckupOf(rows, labelId, loopGiven, l, network, hostname, ports, answers);
    SavedStatIsFound(rows, l.typeRefHash, network, outcome.stat);
  }

  /** The OutputStat table and the check-up that updates it in place. */
  class OutputStatTable {
    var rows: seq<OutputStat>

    constructor(initial: seq<OutputStat>)
      ensures rows == initial
    {
      rows := initial;
    }

    /** `checkup_label`. */
    method CheckupLabel(labelId: int, loopGiven: bool, l: CheckedLabel, network: string,
        hostname: string, ports: string, answers: Answers) returns (outcome: Checkup)
      modifies this
      ensures (outcome, rows) == CheckupOf(old(rows), labelId, loopGiven, l, network, hostname, ports, answers)
    {
      if labelId == 0 || !loopGiven {
        return Skipped;
      }
      var output := StatFor(rows, l.typeRefHash, network);
      if !(l.labelType == "output" && IsValidOutputRef(Some(l.ref)) && output.spent != Some(true)) {
        return Skipped;
      }
      var server := ServerOf(hostname, ports);
      if l.typeRefHash == "" {
        return Aborted;
      }
      var parts := Split(l.ref, ':');
      if |parts| != 2 {
        return Aborted;
      }
      var txHash, txPos := parts[0], parts[1];
      var utxoResp := Interact(answers.tx, txPos);
      if utxoResp.NothingBack? {
        return NoTx(server);
      }
      if utxoResp.InteractRaised? {
        return Aborted;
      }
      var tx := utxoResp.info;
      if answers.unspents.None? {
        return Aborted;
      }
      var scan := FindUnspent(answers.unspents.value, txHash, txPos);
      if scan.ScanRaised? {
        return Aborted;
      }
      output := Updated(output, network, scan.utxoHeight, tx.blocktime, scan.utxoValue, tx.value, scan.unspentUtxo);
      rows := SaveStat(rows, l.typeRefHash, network, output);
      return Saved(server, output);
    }
  }
}
