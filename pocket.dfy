/** The Pocket (Accointing) CSV export: checking that its rows look like a
    Pocket file, and cutting the rows into groups that each start at a
    withdrawal. The rows are given as `csv.reader` produces them, header
    first. */
module Pocket {
  import opened Wrappers

  type Row = seq<string>

  const TransactionTypes: seq<string> := ["withdraw", "order", "deposit"]

  /** The check a data row must pass: 11 columns and a known transaction type. */
  predicate WellFormedRow(row: Row) {
    |row| == 11 && row[0] in TransactionTypes
  }

  /** `validate_csv_format`: None when there is not even a header row (the
      call raises), otherwise whether every data row passes the check. */
  method ValidateCsvFormat(rows: seq<Row>) returns (r: Option<bool>)
    ensures r.None? <==> rows == []
    ensures r.Some? ==> (r.value <==> forall i :: 1 <= i < |rows| ==> WellFormedRow(rows[i]))
  {
    if rows == [] {
      return None;
    }
    var expectedSequence := TransactionTypes;
    var i := 1;
    while i < |rows|
      invariant 1 <= i <= |rows|
      invariant forall j :: 1 <= j < i ==> WellFormedRow(rows[j])
      invariant multiset(expectedSequence) == multiset(TransactionTypes)
    {
      var row := rows[i];
      if |row| != 11 {
        return Some(false);
      }
      if row[0] !in expectedSequence {
        assert row[0] in expectedSequence <==> row[0] in multiset(expectedSequence);
        return Some(false);
      }
      var expectedIndex := IndexOf(expectedSequence, row[0]);
      if expectedIndex == 0 && expectedIndex != 0 {
        return Some(false);
      }
      assert expectedSequence == [expectedSequence[0]] + expectedSequence[1..];
      expectedSequence := expectedSequence[1..] + [expectedSequence[0]];
      assert row[0] in multiset(TransactionTypes);
      i := i + 1;
    }
    return Some(true);
  }

  /** `list.index`. */
  function IndexOf(xs: seq<string>, x: string): (i: nat)
    requires x in xs
    ensures i < |xs| && xs[i] == x && x !in xs[..i]
  {
    if xs[0] == x then 0 else 1 + IndexOf(xs[1..], x)
  }

  /** One row as the dictionary `parse_csv_to_json` builds; an empty optional
      column becomes "" (the text it already is). */
  datatype Record = Record(
    transactionType: string, date: string,
    inBuyAmount: string, inBuyAsset: string,
    outSellAmount: string, outSellAsset: string,
    feeAmount: string, feeAsset: string,
    classification: string, operationId: string, comments: string)

  function EmptyIfFalsy(cell: string): string {
    if cell != "" then cell else ""
  }

  function RecordOf(row: Row): (r: Record)
    requires |row| >= 11
    ensures r.transactionType == row[0] && r.date == row[1]
    ensures r.inBuyAmount == row[2] && r.inBuyAsset == row[3] && r.outSellAmount == row[4] && r.outSellAsset == row[5]
    // the optional columns keep their text, and an empty one stays ""
    ensures r.feeAmount == row[6] && r.feeAsset == row[7] && r.classification == row[8]
    ensures r.operationId == row[9] && r.comments == row[10]
  {
    Record(row[0], row[1], row[2], row[3], row[4], row[5],
      EmptyIfFalsy(row[6]), EmptyIfFalsy(row[7]), EmptyIfFalsy(row[8]),
      EmptyIfFalsy(row[9]), EmptyIfFalsy(row[10]))
  }

  /** The records of data rows 1 .. n-1 (row 0 is the header). */
  function DataRecords(rows: seq<Row>, n: nat): (recs: seq<Record>)
    requires 1 <= n <= |rows| && forall j :: 1 <= j < n ==> |rows[j]| >= 11
    ensures |recs| == n - 1
  {
    if n == 1 then [] else DataRecords(rows, n - 1) + [RecordOf(rows[n - 1])]
  }

  function Flatten(groups: seq<seq<Record>>): seq<Record> {
    if groups == [] then [] else Flatten(groups[..|groups| - 1]) + groups[|groups| - 1]
  }

  predicate IsWithdraw(r: Record) { r.transactionType == "withdraw" }

  /** The shape of the grouping: no group is empty, a withdrawal can only
      open a group, and every group but the first opens with one. */
  predicate GroupedAtWithdrawals(groups: seq<seq<Record>>) {
    (forall g :: 0 <= g < |groups| ==> groups[g] != [] && NoInnerWithdraw(groups[g]))
    && (forall g :: 1 <= g < |groups| ==> IsWithdraw(groups[g][0]))
  }

  /** Only the first record of the group may be a withdrawal. */
  predicate NoInnerWithdraw(group: seq<Record>) {
    forall j :: 1 <= j < |group| ==> !IsWithdraw(group[j])
  }

  /** Appending a record to the open group: a withdrawal only to an empty one. */
  lemma ExtendGroup(group: seq<Record>, rec: Record)
    requires NoInnerWithdraw(group)
    requires group != [] ==> !IsWithdraw(rec)
    ensures NoInnerWithdraw(group + [rec])
    ensures (group + [rec])[0] == if group == [] then rec else group[0]
  {
  }

  /** Closing a group keeps the shape of the grouping. */
  lemma CloseGroup(groups: seq<seq<Record>>, group: seq<Record>)
    requires GroupedAtWithdrawals(groups)
    requires group != [] && (groups != [] ==> IsWithdraw(group[0]))
    requires NoInnerWithdraw(group)
    ensures GroupedAtWithdrawals(groups + [group])
    ensures Flatten(groups + [group]) == Flatten(groups) + group
  {
    assert (groups + [group])[..|groups|] == groups;
  }

  /** What holds after the first i rows: the closed groups and the open one
      hold the records so far, in the shape of the grouping. */
  ghost predicate Progress(rows: seq<Row>, i: nat, jsonList: seq<seq<Record>>, group: seq<Record>) {
    1 <= i <= |rows|
    && (forall j :: 1 <= j < i ==> |rows[j]| >= 11)
    && Flatten(jsonList) + group == DataRecords(rows, i)
    && GroupedAtWithdrawals(jsonList)
    && NoInnerWithdraw(group)
    && (i > 1 ==> group != [])
    && (jsonList != [] ==> group != [] && IsWithdraw(group[0]))
  }

  /** One row of the loop in `parse_csv_to_json`. */
  lemma ProgressStep(rows: seq<Row>, i: nat, jsonList: seq<seq<Record>>, group: seq<Record>)
    requires Progress(rows, i, jsonList, group) && i < |rows| && |rows[i]| >= 11
    ensures var opens := rows[i][0] == "withdraw";
      Progress(rows, i + 1,
        if opens && group != [] then jsonList + [group] else jsonList,
        (if opens then [] else group) + [RecordOf(rows[i])])
  {
    var data := RecordOf(rows[i]);
    if rows[i][0] == "withdraw" {
      if group != [] {
        CloseGroup(jsonList, group);
      }
      ExtendGroup([], data);
    } else {
      ExtendGroup(group, data);
    }
  }

  /** `parse_csv_to_json`: None when the call raises (no header row, or a data
      row with fewer than 11 columns), otherwise the groups of records. */
  method ParseCsvToJson(rows: seq<Row>) returns (r: Option<seq<seq<Record>>>)
    ensures r.None? <==> rows == [] || exists i :: 1 <= i < |rows| && |rows[i]| < 11
    ensures r.Some? ==> Flatten(r.value) == DataRecords(rows, |rows|) && GroupedAtWithdrawals(r.value)
  {
    if rows == [] {
      return None;
    }
    var jsonList: seq<seq<Record>> := [];
    var group: seq<Record> := [];
    var i := 1;
    while i < |rows|
      invariant Progress(rows, i, jsonList, group)
    {
      var row := rows[i];
      if |row| < 11 {
        return None;
      }
      ProgressStep(rows, i, jsonList, group);
      if row[0] == "withdraw" {
        if group != [] {
          jsonList := jsonList + [group];
        }
        group := [];
      }
      var data := RecordOf(row);
      group := group + [data];
      i := i + 1;
    }
    if group != [] {
      CloseGroup(jsonList, group);
      jsonList := jsonList + [group];
    }
    return Some(jsonList);
  }

  /** A file that passes `validate_csv_format` never makes `parse_csv_to_json` raise. */
  lemma ValidFileParses(rows: seq<Row>)
    requires rows != [] && forall i :: 1 <= i < |rows| ==> WellFormedRow(rows[i])
    ensures !exists i :: 1 <= i < |rows| && |rows[i]| < 11
  {
  }
}
