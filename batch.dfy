/** The per-shipment loop of app.py lines 73-83: one result row per shipment,
    in shipment order. */
module Batch {
  import opened Sheet
  import opened Scoring
  import opened Matcher

  /** One row of the shipment sheet: `Tracking Number` and `Recipient Company Name`. */
  datatype Shipment = Shipment(tracking: Cell, recipient: Cell)

  /** One row of the result table. The suggestions are kept as candidates;
      their rendering as display text is not modelled. */
  datatype ResultRow = ResultRow(tracking: Cell, recipient: Cell, matched: string, suggestions: seq<Candidate>)

  /** The result row for one shipment: its tracking number and recipient
      unchanged, and what `match_account` gives for that recipient. */
  function BatchRow(shipment: Shipment, accounts: seq<Account>, threshold: Threshold, ratio: Ratio): ResultRow {
    var r := Match(shipment.recipient, accounts, threshold, MaxSuggestions, ratio);
    ResultRow(shipment.tracking, shipment.recipient, r.0, r.1)
  }

  /** The rows that one row function gives a list of shipments, in order. */
  function RowsOf(shipments: seq<Shipment>, row: Shipment -> ResultRow): (rows: seq<ResultRow>)
    ensures |rows| == |shipments|
  {
    if shipments == [] then []
    else
      var n := |shipments| - 1;
      RowsOf(shipments[..n], row) + [row(shipments[n])]
  }

  /** The result rows of a list of shipments, one per shipment, in order. */
  function BatchRows(shipments: seq<Shipment>, accounts: seq<Account>, threshold: Threshold, ratio: Ratio)
    : seq<ResultRow>
  {
    RowsOf(shipments, s => BatchRow(s, accounts, threshold, ratio))
  }

  /** Match every shipment against the same account list, appending one row
      per shipment; BatchRowsFacts states what each row holds. */
  method RunBatch(shipments: seq<Shipment>, accounts: seq<Account>, threshold: Threshold, ratio: Ratio)
    returns (results: seq<ResultRow>)
    ensures results == BatchRows(shipments, accounts, threshold, ratio)
  {
    results := [];
    var i := 0;
    while i < |shipments|
      invariant 0 <= i <= |shipments|
      invariant results == BatchRows(shipments[..i], accounts, threshold, ratio)
    {
      var row := MatchShipment(shipments[i], accounts, threshold, ratio);
      assert shipments[..i + 1][..i] == shipments[..i];
      results := results + [row];
      i := i + 1;
    }
    assert shipments[..i] == shipments;
  }

  /** The body of the loop: match one shipment's recipient and build its row. */
  method MatchShipment(shipment: Shipment, accounts: seq<Account>, threshold: Threshold, ratio: Ratio)
    returns (row: ResultRow)
    ensures row == BatchRow(shipment, accounts, threshold, ratio)
  {
    var matched, suggestions := MatchAccount(shipment.recipient, accounts, threshold, MaxSuggestions, ratio);
    row := ResultRow(shipment.tracking, shipment.recipient, matched, suggestions);
  }

  /** Row `i` is the row of shipment `i`. */
  lemma {:induction false} RowsOfAt(shipments: seq<Shipment>, row: Shipment -> ResultRow, i: nat)
    requires i < |shipments|
    ensures RowsOf(shipments, row)[i] == row(shipments[i])
  {
    var n := |shipments| - 1;
    if i < n {
      RowsOfAt(shipments[..n], row, i);
      assert shipments[..n][i] == shipments[i];
    }
  }

  /** A row carries its shipment's tracking number and recipient, and a match
      that is "Cash" or an account number with at most three suggestions. */
  lemma BatchRowFacts(shipment: Shipment, accounts: seq<Account>, threshold: Threshold, ratio: Ratio)
    ensures var row := BatchRow(shipment, accounts, threshold, ratio);
      && row.tracking == shipment.tracking
      && row.recipient == shipment.recipient
      && (row.matched, row.suggestions) == Match(shipment.recipient, accounts, threshold, MaxSuggestions, ratio)
      && (row.matched == Cash || HasNumber(accounts, row.matched))
      && |row.suggestions| <= MaxSuggestions
  {
  }

  /** Every row of the batch carries its shipment's tracking number and
      recipient, and the shipment's match. */
  lemma BatchRowsFacts(shipments: seq<Shipment>, accounts: seq<Account>, threshold: Threshold, ratio: Ratio)
    ensures |BatchRows(shipments, accounts, threshold, ratio)| == |shipments|
    ensures var rows := BatchRows(shipments, accounts, threshold, ratio);
      forall i :: 0 <= i < |shipments| ==>
        && rows[i].tracking == shipments[i].tracking
        && rows[i].recipient == shipments[i].recipient
        && (rows[i].matched, rows[i].suggestions)
           == Match(shipments[i].recipient, accounts, threshold, MaxSuggestions, ratio)
        && (rows[i].matched == Cash || HasNumber(accounts, rows[i].matched))
        && |rows[i].suggestions| <= MaxSuggestions
  {
    forall i | 0 <= i < |shipments|
      ensures BatchRows(shipments, accounts, threshold, ratio)[i] == BatchRow(shipments[i], accounts, threshold, ratio)
    {
      RowsOfAt(shipments, s => BatchRow(s, accounts, threshold, ratio), i);
      BatchRowFacts(shipments[i], accounts, threshold, ratio);
    }
  }
}
