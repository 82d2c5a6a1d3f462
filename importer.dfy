/** The background import of an uploaded label file (`process_uploaded_data`):
    BIP-329 JSON lines, the BitBox and BlueWallet CSV exports and the Pocket
    (Accointing) CSV export become labels of one labelbase. What the upload's
    file yields on each `readline()` is given as a sequence; JSON decoding,
    UTF-8 decoding, the serializer's field validation, the mempool lookup of a
    transaction and `Decimal` parsing and formatting are parameters. */
module Importer {
  import opened Wrappers
  import opened Text
  import Rationals
  import opened LabelSerializer
  import Pocket

  type Byte = b: int | 0 <= b < 256

  /** What `readline()` can return: bytes, text, or None. */
  datatype Buf = BytesBuf(data: seq<Byte>) | TextBuf(s: string) | NoneBuf

  /** The values that end the reading of an upload. */
  const EolStop: seq<Buf> := [BytesBuf([]), TextBuf(""), NoneBuf, TextBuf("\n")]

  /** `readline()` at line k; past the end of the file it returns b"". */
  function ReadLine(bufs: seq<Buf>, k: nat): Buf {
    if k < |bufs| then bufs[k] else BytesBuf([])
  }

  /** The number of lines read before the first stop value. */
  function LineCount(bufs: seq<Buf>): (n: nat)
    ensures n <= |bufs|
    ensures forall j :: 0 <= j < n ==> bufs[j] !in EolStop
    ensures n < |bufs| ==> bufs[n] in EolStop
  {
    if bufs == [] || bufs[0] in EolStop then 0 else 1 + LineCount(bufs[1..])
  }

  /** A line read before the end is one of the lines. */
  lemma NextLine(bufs: seq<Buf>, k: nat)
    requires k <= LineCount(bufs) && ReadLine(bufs, k) !in EolStop
    ensures k < LineCount(bufs) && k < |bufs| && ReadLine(bufs, k) == bufs[k]
  {
  }

  /** The lines the import loops process. */
  function Lines(bufs: seq<Buf>): seq<Buf> {
    bufs[..LineCount(bufs)]
  }

  /** The uploaded file is opened in binary mode: a blank line (b"\n") does
      not end the reading, only the empty read at the end of the file does. */
  lemma {:induction false} BinaryReadsToEnd(bufs: seq<Buf>)
    requires forall j :: 0 <= j < |bufs| ==> bufs[j].BytesBuf? && bufs[j].data != []
    ensures Lines(bufs) == bufs
    decreases |bufs|
  {
    if bufs != [] {
      assert bufs[0] !in EolStop;
      BinaryReadsToEnd(bufs[1..]);
    }
  }

  /** The label data the CSV imports build. */
  function Candidate(labelType: string, ref: string, note: string, labelbaseId: int): (d: Data)
    ensures d.Keys == {"type", "ref", "label", "labelbase"}
    ensures TypeName(d) == Some(labelType) && d["labelbase"] == Int(labelbaseId)
  {
    map["type" := Str(labelType), "ref" := Str(ref), "label" := Str(note), "labelbase" := Int(labelbaseId)]
  }

  /** The labels saved for the candidates that pass validation, in order. */
  function ValidOnes(cands: seq<Data>, isValid: Data -> bool): (saved: seq<Data>)
    ensures |saved| <= |cands|
    ensures forall d :: d in saved ==> exists c :: c in cands && isValid(c) && d == Validated(c)
  {
    if cands == [] then []
    else (if isValid(cands[0]) then [Validated(cands[0])] else []) + ValidOnes(cands[1..], isValid)
  }

  /** Every label of the list belongs to the labelbase. */
  predicate InLabelbase(saved: seq<Data>, labelbaseId: int) {
    forall d :: d in saved ==> "labelbase" in d && d["labelbase"] == Int(labelbaseId)
  }

  // ---------------------------------------------------------------------
  // Lines that may raise
  // ---------------------------------------------------------------------

  /** The labels saved so far, and whether the import is still going. */
  datatype Import = Import(saved: seq<Data>, going: bool)

  /** What one line (or one Pocket group) does: it saves some labels and then
      either goes on or raises, which ends the whole import. */
  datatype Step = Step(saves: seq<Data>, raises: bool)

  function Then(prev: Import, step: Step): Import {
    if !prev.going then prev else Import(prev.saved + step.saves, !step.raises)
  }

  // ---------------------------------------------------------------------
  // BIP-329
  // ---------------------------------------------------------------------

  /** One BIP-329 line: parsed, moved into the labelbase, saved when valid. */
  function Bip329Step(line: Buf, labelbaseId: int, parseJson: Buf -> Option<Data>, isValid: Data -> bool): (s: Step)
    ensures s.raises <==> parseJson(line).None?
    ensures InLabelbase(s.saves, labelbaseId)
  {
    match parseJson(line)
    case None => Step([], true)
    case Some(data) =>
      var d := data["labelbase" := Int(labelbaseId)];
      Step(if isValid(d) then [Validated(d)] else [], false)
  }

  function Bip329Run(lines: seq<Buf>, labelbaseId: int, parseJson: Buf -> Option<Data>, isValid: Data -> bool): Import {
    if lines == [] then Import([], true)
    else Then(Bip329Run(lines[..|lines| - 1], labelbaseId, parseJson, isValid),
      Bip329Step(lines[|lines| - 1], labelbaseId, parseJson, isValid))
  }

  /** Once a line has raised, the later lines change nothing. */
  lemma {:induction false} Bip329Aborted(lines: seq<Buf>, m: nat, labelbaseId: int, parseJson: Buf -> Option<Data>, isValid: Data -> bool)
    requires m <= |lines| && !Bip329Run(lines[..m], labelbaseId, parseJson, isValid).going
    ensures Bip329Run(lines, labelbaseId, parseJson, isValid) == Bip329Run(lines[..m], labelbaseId, parseJson, isValid)
    decreases |lines|
  {
    if m == |lines| {
      assert lines[..m] == lines;
    } else {
      var init := lines[..|lines| - 1];
      assert init[..m] == lines[..m];
      Bip329Aborted(init, m, labelbaseId, parseJson, isValid);
    }
  }

  /** A BIP-329 import runs to its end exactly when every line parses, and
      every label it saves belongs to the upload's labelbase, whatever
      labelbase the line named. */
  lemma {:induction false} Bip329Outcome(lines: seq<Buf>, labelbaseId: int, parseJson: Buf -> Option<Data>, isValid: Data -> bool)
    ensures Bip329Run(lines, labelbaseId, parseJson, isValid).going
      <==> forall i :: 0 <= i < |lines| ==> parseJson(lines[i]).Some?
    ensures InLabelbase(Bip329Run(lines, labelbaseId, parseJson, isValid).saved, labelbaseId)
    decreases |lines|
  {
    if lines != [] {
      var init := lines[..|lines| - 1];
      Bip329Outcome(init, labelbaseId, parseJson, isValid);
      assert forall i :: 0 <= i < |init| ==> init[i] == lines[i];
    }
  }

  /** The BIP-329 branch: a line that is not a JSON object ends the import. */
  method ImportBip329(bufs: seq<Buf>, labelbaseId: int, parseJson: Buf -> Option<Data>, isValid: Data -> bool)
    returns (saved: seq<Data>, imported: nat, completed: bool)
    ensures Import(saved, completed) == Bip329Run(Lines(bufs), labelbaseId, parseJson, isValid)
    ensures imported == |saved|
  {
    saved, imported := [], 0;
    var k := 0;
    while true
      invariant k <= LineCount(bufs)
      invariant Bip329Run(bufs[..k], labelbaseId, parseJson, isValid) == Import(saved, true)
      invariant imported == |saved|
      decreases |bufs| - k
    {
      var buf := ReadLine(bufs, k);
      if buf in EolStop {
        break;
      }
      NextLine(bufs, k);
      assert bufs[..k + 1][..k] == bufs[..k];
      var parsed := parseJson(buf);
      if parsed.None? {
        assert Lines(bufs)[..k + 1] == bufs[..k + 1];
        Bip329Aborted(Lines(bufs), k + 1, labelbaseId, parseJson, isValid);
        return saved, imported, false;
      }
      var data := parsed.value["labelbase" := Int(labelbaseId)];
      if isValid(data) {
        saved := saved + [Validated(data)];
        imported := imported + 1;
      }
      k := k + 1;
    }
    assert bufs[..k] == Lines(bufs);
    completed := true;
  }

  // ---------------------------------------------------------------------
  // BitBox CSV
  // ---------------------------------------------------------------------

  /** A line decoded as UTF-8; a text line has no `decode` and raises. */
  function Decoded(line: Buf, decode: seq<Byte> -> Option<string>): Option<string> {
    if line.BytesBuf? then decode(line.data) else None
  }

  /** The columns of a BitBox line: Time,Type,Amount,Unit,Fee,Address,
      Transaction ID,Note. */
  const BitboxColumns: seq<(string, nat)> := [("tx", 6), ("addr", 5)]

  /** The two labels a BitBox line gives: the transaction and the address,
      both labelled with the note columns joined by spaces; None when the
      line does not decode or has no transaction column. */
  function BitboxCandidates(line: Buf, labelbaseId: int, decode: seq<Byte> -> Option<string>): (r: Option<seq<Data>>)
    ensures r.Some? ==> |r.value| == 2 && TypeName(r.value[0]) == Some("tx") && TypeName(r.value[1]) == Some("addr")
    ensures r.None? <==> Decoded(line, decode).None? || |Split(Decoded(line, decode).value, ',')| <= 6
  {
    match Decoded(line, decode)
    case None => None
    case Some(text) =>
      var cols := Split(text, ',');
      if |cols| <= 6 then None
      else
        var note := Join(" ", cols[7..]);
        Some([Candidate("tx", cols[6], note, labelbaseId), Candidate("addr", cols[5], note, labelbaseId)])
  }

  /** One BitBox line as written: a failure of any kind on the line reaches
      a handler that itself raises (it names a `request` and a `messages`
      that do not exist there), so the import ends. */
  function BitboxStep(line: Buf, labelbaseId: int, decode: seq<Byte> -> Option<string>, isValid: Data -> bool): (s: Step)
    ensures !s.raises <==> (BitboxCandidates(line, labelbaseId, decode).Some?
      && forall c :: c in BitboxCandidates(line, labelbaseId, decode).value ==> isValid(c))
  {
    match BitboxCandidates(line, labelbaseId, decode)
    case None => Step([], true)
    case Some(cands) =>
      if !isValid(cands[0]) then Step([], true)
      else if !isValid(cands[1]) then Step([Validated(cands[0])], true)
      else Step([Validated(cands[0]), Validated(cands[1])], false)
  }

  function BitboxRun(lines: seq<Buf>, labelbaseId: int, decode: seq<Byte> -> Option<string>, isValid: Data -> bool): Import {
    if lines == [] then Import([], true)
    else Then(BitboxRun(lines[..|lines| - 1], labelbaseId, decode, isValid),
      BitboxStep(lines[|lines| - 1], labelbaseId, decode, isValid))
  }

  lemma {:induction false} BitboxAborted(lines: seq<Buf>, m: nat, labelbaseId: int, decode: seq<Byte> -> Option<string>, isValid: Data -> bool)
    requires m <= |lines| && !BitboxRun(lines[..m], labelbaseId, decode, isValid).going
    ensures BitboxRun(lines, labelbaseId, decode, isValid) == BitboxRun(lines[..m], labelbaseId, decode, isValid)
    decreases |lines|
  {
    if m == |lines| {
      assert lines[..m] == lines;
    } else {
      var init := lines[..|lines| - 1];
      assert init[..m] == lines[..m];
      BitboxAborted(init, m, labelbaseId, decode, isValid);
    }
  }

  /** The BitBox branch as written. */
  method ImportBitbox(bufs: seq<Buf>, labelbaseId: int, decode: seq<Byte> -> Option<string>, isValid: Data -> bool)
    returns (saved: seq<Data>, imported: nat, completed: bool)
    ensures Import(saved, completed) == BitboxRun(Lines(bufs), labelbaseId, decode, isValid)
    ensures imported == |saved|
  {
    saved, imported := [], 0;
    var k := 0;
    while true
      invariant k <= LineCount(bufs)
      invariant BitboxRun(bufs[..k], labelbaseId, decode, isValid) == Import(saved, true)
      invariant imported == |saved|
      decreases |bufs| - k
    {
      var buf := ReadLine(bufs, k);
      if buf in EolStop {
        break;
      }
      NextLine(bufs, k);
      assert bufs[..k + 1][..k] == bufs[..k];
      var step := BitboxLine(buf, labelbaseId, decode, isValid);
      saved := saved + step.saves;
      imported := imported + |step.saves|;
      if step.raises {
        assert Lines(bufs)[..k + 1] == bufs[..k + 1];
        BitboxAborted(Lines(bufs), k + 1, labelbaseId, decode, isValid);
        return saved, imported, false;
      }
      k := k + 1;
    }
    assert bufs[..k] == Lines(bufs);
    completed := true;
  }

  /** The body of the BitBox loop for one line: the labels saved, and whether
      the handler was reached. */
  method BitboxLine(buf: Buf, labelbaseId: int, decode: seq<Byte> -> Option<string>, isValid: Data -> bool)
    returns (step: Step)
    ensures step == BitboxStep(buf, labelbaseId, decode, isValid)
  {
    var text := Decoded(buf, decode);
    if text.None? {
      return Step([], true);
    }
    var sbuf := Split(text.value, ',');
    var saves: seq<Data> := [];
    var e := 0;
    while e < |BitboxColumns|
      invariant 0 <= e <= 2
      invariant |sbuf| > 6 ==> saves == ValidPrefix(BitboxCandidates(buf, labelbaseId, decode).value, e)
      invariant |sbuf| > 6 ==> forall j :: 0 <= j < e ==> isValid(BitboxCandidates(buf, labelbaseId, decode).value[j])
      invariant |sbuf| <= 6 ==> e == 0 && saves == []
    {
      var (labelType, column) := BitboxColumns[e];
      if column >= |sbuf| {
        return Step(saves, true);
      }
      var data := Candidate(labelType, sbuf[column], Join(" ", sbuf[7..]), labelbaseId);
      if !isValid(data) {
        return Step(saves, true);
      }
      saves := saves + [Validated(data)];
      e := e + 1;
    }
    return Step(saves, false);
  }

  function ValidPrefix(cands: seq<Data>, e: nat): seq<Data>
    requires e <= |cands|
  {
    if e == 0 then [] else ValidPrefix(cands, e - 1) + [Validated(cands[e - 1])]
  }

  /** The BitBox import as evidently intended: a line that fails is reported
      and skipped, and every valid label of the other lines is saved. */
  function BitboxSkipping(lines: seq<Buf>, labelbaseId: int, decode: seq<Byte> -> Option<string>, isValid: Data -> bool): (saved: seq<Data>)
    ensures InLabelbase(saved, labelbaseId)
  {
    if lines == [] then []
    else
      var cands := BitboxCandidates(lines[|lines| - 1], labelbaseId, decode);
      BitboxSkipping(lines[..|lines| - 1], labelbaseId, decode, isValid)
        + (if cands.Some? then ValidOnes(cands.value, isValid) else [])
  }

  /** What the import as written saves is a prefix of what the intended one
      saves, and all of it when no line fails. */
  lemma {:induction false} BitboxWrittenIsPrefix(lines: seq<Buf>, labelbaseId: int, decode: seq<Byte> -> Option<string>, isValid: Data -> bool)
    ensures var written := BitboxRun(lines, labelbaseId, decode, isValid);
      var intended := BitboxSkipping(lines, labelbaseId, decode, isValid);
      |written.saved| <= |intended| && written.saved == intended[..|written.saved|]
      && (written.going ==> written.saved == intended)
    decreases |lines|
  {
    if lines != [] {
      var init := lines[..|lines| - 1];
      var last := lines[|lines| - 1];
      BitboxWrittenIsPrefix(init, labelbaseId, decode, isValid);
      BitboxStepIsPrefix(last, labelbaseId, decode, isValid);
      var w0 := BitboxRun(init, labelbaseId, decode, isValid);
      var i0 := BitboxSkipping(init, labelbaseId, decode, isValid);
      var s := BitboxStep(last, labelbaseId, decode, isValid);
      var cands := BitboxCandidates(last, labelbaseId, decode);
      var c := if cands.Some? then ValidOnes(cands.value, isValid) else [];
      assert BitboxSkipping(lines, labelbaseId, decode, isValid) == i0 + c;
      if w0.going {
        assert BitboxRun(lines, labelbaseId, decode, isValid).saved == i0 + s.saves;
        PrefixAfter(i0, s.saves, c);
      } else {
        assert BitboxRun(lines, labelbaseId, decode, isValid) == w0;
        PrefixBefore(w0.saved, i0, c);
      }
    }
  }

  /** A prefix of c after a gives a prefix of a + c. */
  lemma PrefixAfter(a: seq<Data>, p: seq<Data>, c: seq<Data>)
    requires |p| <= |c| && p == c[..|p|]
    ensures |a + p| <= |a + c| && a + p == (a + c)[..|a + p|]
  {
    assert (a + c)[..|a + p|] == a + c[..|p|];
  }

  /** A prefix of a is a prefix of a + c. */
  lemma PrefixBefore(p: seq<Data>, a: seq<Data>, c: seq<Data>)
    requires |p| <= |a| && p == a[..|p|]
    ensures |p| <= |a + c| && p == (a + c)[..|p|]
  {
    assert (a + c)[..|p|] == a[..|p|];
  }

  /** One line: what the handler as written saves is a prefix of what the
      intended handler saves. */
  lemma BitboxStepIsPrefix(line: Buf, labelbaseId: int, decode: seq<Byte> -> Option<string>, isValid: Data -> bool)
    ensures var s := BitboxStep(line, labelbaseId, decode, isValid);
      var cands := BitboxCandidates(line, labelbaseId, decode);
      var intended := if cands.Some? then ValidOnes(cands.value, isValid) else [];
      |s.saves| <= |intended| && s.saves == intended[..|s.saves|] && (!s.raises ==> s.saves == intended)
  {
  }

  /** The BitBox import with the intended handler. */
  method ImportBitboxSkipping(bufs: seq<Buf>, labelbaseId: int, decode: seq<Byte> -> Option<string>, isValid: Data -> bool)
    returns (saved: seq<Data>, imported: nat)
    ensures saved == BitboxSkipping(Lines(bufs), labelbaseId, decode, isValid)
    ensures imported == |saved|
  {
    saved, imported := [], 0;
    var k := 0;
    while true
      invariant k <= LineCount(bufs)
      invariant saved == BitboxSkipping(bufs[..k], labelbaseId, decode, isValid)
      invariant imported == |saved|
      decreases |bufs| - k
    {
      var buf := ReadLine(bufs, k);
      if buf in EolStop {
        break;
      }
      NextLine(bufs, k);
      assert bufs[..k + 1][..k] == bufs[..k];
      var saves := BitboxLineSkipping(buf, labelbaseId, decode, isValid);
      saved := saved + saves;
      imported := imported + |saves|;
      k := k + 1;
    }
    assert bufs[..k] == Lines(bufs);
  }

  /** The body of the intended BitBox loop for one line. */
  method BitboxLineSkipping(buf: Buf, labelbaseId: int, decode: seq<Byte> -> Option<string>, isValid: Data -> bool)
    returns (saves: seq<Data>)
    ensures var cands := BitboxCandidates(buf, labelbaseId, decode);
      saves == if cands.Some? then ValidOnes(cands.value, isValid) else []
  {
    var text := Decoded(buf, decode);
    if text.None? {
      return [];
    }
    var sbuf := Split(text.value, ',');
    if |sbuf| <= 6 {
      return [];
    }
    ghost var cands := BitboxCandidates(buf, labelbaseId, decode).value;
    saves := [];
    var e := 0;
    while e < |BitboxColumns|
      invariant 0 <= e <= 2
      invariant saves + ValidOnes(cands[e..], isValid) == ValidOnes(cands, isValid)
    {
      var (labelType, column) := BitboxColumns[e];
      var data := Candidate(labelType, sbuf[column], Join(" ", sbuf[7..]), labelbaseId);
      assert data == cands[e];
      if isValid(data) {
        saves := saves + [Validated(data)];
      }
      e := e + 1;
    }
  }

  /** A line without a transaction column ends the import as written, and
      the lines after it are lost; the intended import saves them. */
  lemma BitboxShortLineExample(short: seq<Byte>, good: seq<Byte>, labelbaseId: int,
      decode: seq<Byte> -> Option<string>, isValid: Data -> bool)
    requires decode(short).Some? && |Split(decode(short).value, ',')| <= 6
    requires decode(good).Some? && |Split(decode(good).value, ',')| > 6
    requires forall d :: isValid(d)
    ensures BitboxRun([BytesBuf(short), BytesBuf(good)], labelbaseId, decode, isValid) == Import([], false)
    ensures |BitboxSkipping([BytesBuf(short), BytesBuf(good)], labelbaseId, decode, isValid)| == 2
  {
    var lines := [BytesBuf(short), BytesBuf(good)];
    assert lines[..1] == [BytesBuf(short)];
    assert [BytesBuf(short)][..0] == [];
    assert BitboxStep(BytesBuf(short), labelbaseId, decode, isValid) == Step([], true);
    assert BitboxRun([BytesBuf(short)], labelbaseId, decode, isValid) == Import([], false);
    assert BitboxSkipping([BytesBuf(short)], labelbaseId, decode, isValid) == [];
    var cands := BitboxCandidates(BytesBuf(good), labelbaseId, decode).value;
    assert |ValidOnes(cands, isValid)| == 2 by {
      assert cands[1..][1..] == [];
    }
  }

  // ---------------------------------------------------------------------
  // BlueWallet CSV
  // ---------------------------------------------------------------------

  /** The transaction label a BlueWallet line gives (column 1 is the
      transaction, columns 3.. the memo); None when the line does not decode
      or has no second column. */
  function BluewalletCandidate(line: Buf, labelbaseId: int, decode: seq<Byte> -> Option<string>): (r: Option<Data>)
    ensures r.Some? ==> TypeName(r.value) == Some("tx") && "labelbase" in r.value && r.value["labelbase"] == Int(labelbaseId)
    ensures r.None? <==> Decoded(line, decode).None? || |Split(Decoded(line, decode).value, ',')| < 2
  {
    match Decoded(line, decode)
    case None => None
    case Some(text) =>
      var cols := Split(text, ',');
      if |cols| < 2 then None
      else Some(Candidate("tx", cols[1], Join(" ", if |cols| > 3 then cols[3..] else []), labelbaseId))
  }

  /** The labels saved from BlueWallet data lines: failures are skipped. */
  function BluewalletSaved(lines: seq<Buf>, labelbaseId: int, decode: seq<Byte> -> Option<string>, isValid: Data -> bool): (saved: seq<Data>)
    ensures |saved| <= |lines|
    ensures InLabelbase(saved, labelbaseId)
  {
    if lines == [] then []
    else
      var cand := BluewalletCandidate(lines[|lines| - 1], labelbaseId, decode);
      BluewalletSaved(lines[..|lines| - 1], labelbaseId, decode, isValid)
        + (if cand.Some? && isValid(cand.value) then [Validated(cand.value)] else [])
  }

  lemma BluewalletSavedNext(bufs: seq<Buf>, k: nat, labelbaseId: int, decode: seq<Byte> -> Option<string>, isValid: Data -> bool)
    requires 0 < k < |bufs|
    ensures var cand := BluewalletCandidate(bufs[k], labelbaseId, decode);
      BluewalletSaved(bufs[1..k + 1], labelbaseId, decode, isValid)
      == BluewalletSaved(bufs[1..k], labelbaseId, decode, isValid)
        + (if cand.Some? && isValid(cand.value) then [Validated(cand.value)] else [])
  {
    var lines := bufs[1..k + 1];
    assert lines[|lines| - 1] == bufs[k];
    assert lines[..|lines| - 1] == bufs[1..k];
  }

  /** The BlueWallet branch: the header line is skipped and a line that
      fails is ignored. */
  method ImportBluewallet(bufs: seq<Buf>, labelbaseId: int, decode: seq<Byte> -> Option<string>, isValid: Data -> bool)
    returns (saved: seq<Data>, imported: nat)
    ensures saved == if Lines(bufs) == [] then [] else BluewalletSaved(Lines(bufs)[1..], labelbaseId, decode, isValid)
    ensures imported == |saved|
  {
    saved, imported := [], 0;
    var headerRow := true;
    var k := 0;
    while true
      invariant k <= LineCount(bufs)
      invariant headerRow <==> k == 0
      invariant k == 0 ==> saved == []
      invariant k > 0 ==> saved == BluewalletSaved(bufs[1..k], labelbaseId, decode, isValid)
      invariant imported == |saved|
      decreases |bufs| - k
    {
      var buf := ReadLine(bufs, k);
      if buf in EolStop {
        break;
      }
      NextLine(bufs, k);
      if headerRow {
        headerRow := false;
        k := k + 1;
        continue;
      }
      BluewalletSavedNext(bufs, k, labelbaseId, decode, isValid);
      var cand := BluewalletCandidate(buf, labelbaseId, decode);
      if cand.Some? && isValid(cand.value) {
        saved := saved + [Validated(cand.value)];
        imported := imported + 1;
      }
      k := k + 1;
    }
    assert k == LineCount(bufs);
    if k > 0 {
      assert bufs[1..k] == Lines(bufs)[1..];
    }
  }

  // ---------------------------------------------------------------------
  // Pocket (Accointing) CSV
  // ---------------------------------------------------------------------

  /** `vouts[i].get('value', 0) == Decimal(outSellAmount) * 100000000`. */
  predicate PaysAmount(vout: Option<int>, amount: Rationals.Rat) {
    Rationals.Eq(Rationals.FromInt(vout.GetOr(0)), Rationals.Mul(amount, Rationals.FromInt(100000000)))
  }

  /** `"{}:{}".format(txid, i)`. */
  function OutputRef(txid: string, i: nat): string {
    txid + ":" + NatToString(i)
  }

  /** The outputs of the transaction that pay the sold amount. */
  function Matching(txid: string, vouts: seq<Option<int>>, amount: Rationals.Rat): (refs: seq<string>)
    ensures |refs| <= |vouts|
    ensures forall i :: 0 <= i < |vouts| && PaysAmount(vouts[i], amount) ==> OutputRef(txid, i) in refs
    ensures forall r :: r in refs ==> exists i :: 0 <= i < |vouts| && r == OutputRef(txid, i) && PaysAmount(vouts[i], amount)
  {
    if vouts == [] then []
    else
      var i := |vouts| - 1;
      Matching(txid, vouts[..i], amount) + (if PaysAmount(vouts[i], amount) then [OutputRef(txid, i)] else [])
  }

  /** The loop that collects `potential_utxos`; the amount is parsed anew
      in every round, so it raises (None) only when there is an output. */
  method PotentialUtxos(txid: string, vouts: seq<Option<int>>, outSellAmount: string,
      parseDecimal: string -> Option<Rationals.Rat>)
    returns (refs: Option<seq<string>>)
    ensures vouts == [] ==> refs == Some([])
    ensures vouts != [] ==> refs == match parseDecimal(outSellAmount)
      case None => None
      case Some(amount) => Some(Matching(txid, vouts, amount))
  {
    var found: seq<string> := [];
    var i := 0;
    while i < |vouts|
      invariant 0 <= i <= |vouts|
      invariant i > 0 ==> (parseDecimal(outSellAmount).Some?
        && found == Matching(txid, vouts[..i], parseDecimal(outSellAmount).value))
      invariant i == 0 ==> found == []
    {
      var amount := parseDecimal(outSellAmount);
      if amount.None? {
        return None;
      }
      assert vouts[..i + 1][..i] == vouts[..i];
      if PaysAmount(vouts[i], amount.value) {
        found := found + [OutputRef(txid, i)];
      }
      i := i + 1;
    }
    assert vouts[..i] == vouts;
    return Some(found);
  }

  /** What a Pocket import needs besides the file. */
  datatype PocketEnv = PocketEnv(
    getTx: string -> Option<seq<Option<int>>>,
    parseDecimal: string -> Option<Rationals.Rat>,
    format2: Rationals.Rat -> string,
    isValid: Data -> bool)

  /** The label text of a group (withdrawal, order, deposit); None when the
      bought amount is not a decimal. */
  function PocketLabel(item: seq<Pocket.Record>, env: PocketEnv): Option<string>
    requires |item| >= 3
  {
    match env.parseDecimal(item[2].inBuyAmount)
    case None => None
    case Some(bought) =>
      Some("Got " + item[0].outSellAmount + " " + item[1].inBuyAsset + " for " + env.format2(bought)
        + " " + item[2].inBuyAsset + " with reference: " + item[1].operationId + " #Pocket")
  }

  /** The label a group leads to: its output when exactly one output pays the
      sold amount, the transaction with a warning tag when several do, none
      when no output does. */
  function PocketCandidate(refs: seq<string>, txid: string, note: string, labelbaseId: int): (r: Option<Data>)
    ensures r.None? <==> refs == []
    ensures r.Some? ==> (TypeName(r.value) == Some("output") <==> |refs| == 1)
    ensures r.Some? ==> "labelbase" in r.value && r.value["labelbase"] == Int(labelbaseId)
  {
    if |refs| == 1 then Some(Candidate("output", refs[0], note, labelbaseId))
    else if |refs| > 1 then Some(Candidate("tx", txid, note + " #W001_UTXO_NOT_FOUND", labelbaseId))
    else None
  }

  /** The matching outputs of a group's withdrawal, None when something raises. */
  function PocketRefs(item: seq<Pocket.Record>, env: PocketEnv): Option<seq<string>>
    requires |item| >= 1
  {
    var txid := item[0].operationId;
    match env.getTx(txid)
    case None => None
    case Some(vouts) =>
      if vouts == [] then Some([])
      else match env.parseDecimal(item[0].outSellAmount)
        case None => None
        case Some(amount) => Some(Matching(txid, vouts, amount))
  }

  /** One Pocket group: a group of fewer than three records, an amount that
      is not a decimal or a failed transaction lookup ends the import. */
  function PocketStep(item: seq<Pocket.Record>, labelbaseId: int, env: PocketEnv): (s: Step)
    ensures s.raises <==> |item| < 3 || PocketLabel(item, env).None? || PocketRefs(item, env).None?
    ensures |s.saves| <= 1
    ensures InLabelbase(s.saves, labelbaseId)
  {
    if |item| < 3 then Step([], true)
    else match PocketLabel(item, env)
      case None => Step([], true)
      case Some(note) =>
        match PocketRefs(item, env)
        case None => Step([], true)
        case Some(refs) =>
          var cand := PocketCandidate(refs, item[0].operationId, note, labelbaseId);
          Step(if cand.Some? && env.isValid(cand.value) then [Validated(cand.value)] else [], false)
  }

  function PocketRun(groups: seq<seq<Pocket.Record>>, labelbaseId: int, env: PocketEnv): Import {
    if groups == [] then Import([], true)
    else Then(PocketRun(groups[..|groups| - 1], labelbaseId, env), PocketStep(groups[|groups| - 1], labelbaseId, env))
  }

  lemma {:induction false} PocketAborted(groups: seq<seq<Pocket.Record>>, m: nat, labelbaseId: int, env: PocketEnv)
    requires m <= |groups| && !PocketRun(groups[..m], labelbaseId, env).going
    ensures PocketRun(groups, labelbaseId, env) == PocketRun(groups[..m], labelbaseId, env)
    decreases |groups|
  {
    if m == |groups| {
      assert groups[..m] == groups;
    } else {
      var init := groups[..|groups| - 1];
      assert init[..m] == groups[..m];
      PocketAborted(init, m, labelbaseId, env);
    }
  }

  /** Every label a Pocket import saves belongs to the upload's labelbase. */
  lemma {:induction false} PocketIntoLabelbase(groups: seq<seq<Pocket.Record>>, labelbaseId: int, env: PocketEnv)
    ensures InLabelbase(PocketRun(groups, labelbaseId, env).saved, labelbaseId)
    decreases |groups|
  {
    if groups != [] {
      PocketIntoLabelbase(groups[..|groups| - 1], labelbaseId, env);
    }
  }

  /** The body of the Pocket loop for one group. */
  method PocketGroup(item: seq<Pocket.Record>, labelbaseId: int, env: PocketEnv) returns (step: Step)
    ensures step == PocketStep(item, labelbaseId, env)
  {
    if |item| < 3 {
      return Step([], true);
    }
    var bought := env.parseDecimal(item[2].inBuyAmount);
    if bought.None? {
      return Step([], true);
    }
    var note := "Got " + item[0].outSellAmount + " " + item[1].inBuyAsset + " for " + env.format2(bought.value)
      + " " + item[2].inBuyAsset + " with reference: " + item[1].operationId + " #Pocket";
    var txid := item[0].operationId;
    var tx := env.getTx(txid);
    if tx.None? {
      return Step([], true);
    }
    var potentialUtxos := PotentialUtxos(txid, tx.value, item[0].outSellAmount, env.parseDecimal);
    if potentialUtxos.None? {
      return Step([], true);
    }
    var data := PocketCandidate(potentialUtxos.value, txid, note, labelbaseId);
    if data.Some? && env.isValid(data.value) {
      return Step([Validated(data.value)], false);
    }
    return Step([], false);
  }

  /** The loop over the groups of a validated Pocket file. */
  method ImportPocketGroups(groups: seq<seq<Pocket.Record>>, labelbaseId: int, env: PocketEnv)
    returns (saved: seq<Data>, imported: nat, completed: bool)
    ensures Import(saved, completed) == PocketRun(groups, labelbaseId, env)
    ensures imported == |saved|
  {
    saved, imported := [], 0;
    var k := 0;
    while k < |groups|
      invariant 0 <= k <= |groups|
      invariant PocketRun(groups[..k], labelbaseId, env) == Import(saved, true)
      invariant imported == |saved|
    {
      assert groups[..k + 1][..k] == groups[..k];
      var step := PocketGroup(groups[k], labelbaseId, env);
      saved := saved + step.saves;
      imported := imported + |step.saves|;
      if step.raises {
        PocketAborted(groups, k + 1, labelbaseId, env);
        return saved, imported, false;
      }
      k := k + 1;
    }
    assert groups[..k] == groups;
    completed := true;
  }

  /** Every data row passes `validate_csv_format`'s check. */
  predicate AllWellFormed(rows: seq<Pocket.Row>) {
    forall i :: 1 <= i < |rows| ==> Pocket.WellFormedRow(rows[i])
  }

  /** The Pocket branch: a file without a header row raises, a file that
      fails validation imports nothing, and a valid one imports its groups. */
  method ImportPocket(rows: seq<Pocket.Row>, labelbaseId: int, env: PocketEnv)
    returns (saved: seq<Data>, imported: nat, completed: bool)
    ensures imported == |saved|
    ensures rows == [] ==> saved == [] && !completed
    ensures rows != [] && !AllWellFormed(rows) ==> saved == [] && completed
    ensures rows != [] && AllWellFormed(rows) ==>
      exists groups :: Pocket.Flatten(groups) == Pocket.DataRecords(rows, |rows|)
        && Pocket.GroupedAtWithdrawals(groups)
        && Import(saved, completed) == PocketRun(groups, labelbaseId, env)
    ensures InLabelbase(saved, labelbaseId)
  {
    var valid := Pocket.ValidateCsvFormat(rows);
    if valid.None? {
      return [], 0, false;
    }
    if !valid.value {
      return [], 0, true;
    }
    var groups := Pocket.ParseCsvToJson(rows);
    if groups.None? {
      Pocket.ValidFileParses(rows);
      assert false;
    }
    saved, imported, completed := ImportPocketGroups(groups.value, labelbaseId, env);
    PocketIntoLabelbase(groups.value, labelbaseId, env);
  }

  // ---------------------------------------------------------------------
  // The task
  // ---------------------------------------------------------------------

  /** An uploaded file: its import type, its labelbase, what `readline()`
      yields on it, and its rows as `csv.reader` reads them. */
  datatype Upload = Upload(importType: string, labelbaseId: int, bufs: seq<Buf>, csvRows: seq<Pocket.Row>)

  /** What the task depends on but does not compute itself. */
  datatype Oracles = Oracles(
    // `json.loads` of a line, None when it raises or the document is not an object
    parseJson: Buf -> Option<Data>,
    // UTF-8 decoding, None when it raises
    decode: seq<Byte> -> Option<string>,
    // the serializer's field validation (`is_valid`)
    isValid: Data -> bool,
    // the `value` of each output of a transaction from the mempool API
    // (None for an output without one), None when the request raises
    getTx: string -> Option<seq<Option<int>>>,
    // `decimal.Decimal(text)`, None when it raises
    parseDecimal: string -> Option<Rationals.Rat>,
    // `"{:.2f}".format(d)`
    format2: Rationals.Rat -> string,
    // whether the Samourai import runs to its end
    samouraiCompletes: bool)

  /** The labels saved, the count of imported labels, and whether the upload
      was deleted at the end. */
  datatype Outcome = Outcome(saved: seq<Data>, imported: nat, deleted: bool)

  const ImportTypes: set<string> := {"BIP-0329", "samourai", "csv-bitbox", "pocket-accointing", "csv-bluewallet"}

  /** `process_uploaded_data`: a missing upload or an exception anywhere ends
      the task without deleting the upload; otherwise the upload is deleted
      once its import type has been processed. */
  method ProcessUploadedData(upload: Option<Upload>, o: Oracles) returns (out: Outcome)
    ensures out.imported == |out.saved|
    ensures upload.None? ==> out == Outcome([], 0, false)
    ensures upload.Some? && upload.value.importType !in ImportTypes ==> out == Outcome([], 0, true)
    ensures upload.Some? && upload.value.importType == "BIP-0329" ==>
      Import(out.saved, out.deleted) == Bip329Run(Lines(upload.value.bufs), upload.value.labelbaseId, o.parseJson, o.isValid)
    ensures upload.Some? && upload.value.importType == "samourai" ==>
      out.saved == [] && out.deleted == o.samouraiCompletes
    ensures upload.Some? && upload.value.importType == "csv-bitbox" ==>
      Import(out.saved, out.deleted) == BitboxRun(Lines(upload.value.bufs), upload.value.labelbaseId, o.decode, o.isValid)
    ensures upload.Some? && upload.value.importType == "csv-bluewallet" ==>
      (out.deleted && out.saved == (var lines := Lines(upload.value.bufs);
        if lines == [] then [] else BluewalletSaved(lines[1..], upload.value.labelbaseId, o.decode, o.isValid)))
    ensures upload.Some? && upload.value.importType == "pocket-accointing" ==>
      (upload.value.csvRows == [] ==> out == Outcome([], 0, false))
      && (upload.value.csvRows != [] && !AllWellFormed(upload.value.csvRows) ==> out == Outcome([], 0, true))
      && (upload.value.csvRows != [] && AllWellFormed(upload.value.csvRows) ==>
        exists groups :: Pocket.Flatten(groups) == Pocket.DataRecords(upload.value.csvRows, |upload.value.csvRows|)
          && Pocket.GroupedAtWithdrawals(groups)
          && Import(out.saved, out.deleted) == PocketRun(groups, upload.value.labelbaseId,
            PocketEnv(o.getTx, o.parseDecimal, o.format2, o.isValid)))
    ensures upload.Some? ==> InLabelbase(out.saved, upload.value.labelbaseId)
  {
    if upload.None? {
      return Outcome([], 0, false);
    }
    var u := upload.value;
    var saved: seq<Data> := [];
    var imported: nat := 0;
    var completed := true;
    if u.importType == "BIP-0329" {
      saved, imported, completed := ImportBip329(u.bufs, u.labelbaseId, o.parseJson, o.isValid);
      Bip329Outcome(Lines(u.bufs), u.labelbaseId, o.parseJson, o.isValid);
    } else if u.importType == "samourai" {
      completed := o.samouraiCompletes;
    } else if u.importType == "csv-bitbox" {
      saved, imported, completed := ImportBitbox(u.bufs, u.labelbaseId, o.decode, o.isValid);
      BitboxWrittenIsPrefix(Lines(u.bufs), u.labelbaseId, o.decode, o.isValid);
      assert forall d :: d in saved ==> d in BitboxSkipping(Lines(u.bufs), u.labelbaseId, o.decode, o.isValid);
    } else if u.importType == "pocket-accointing" {
      var env := PocketEnv(o.getTx, o.parseDecimal, o.format2, o.isValid);
      saved, imported, completed := ImportPocket(u.csvRows, u.labelbaseId, env);
    } else if u.importType == "csv-bluewallet" {
      saved, imported := ImportBluewallet(u.bufs, u.labelbaseId, o.decode, o.isValid);
    }
    return Outcome(saved, imported, completed);
  }
}
