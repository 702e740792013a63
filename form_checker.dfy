/** The per-company loop of the Form 5.07 finder (sec_form_checker2.py,
    lines 43-101): every input row yields exactly one result record, in input
    order. A row without a usable CIK gets a "No CIK Found" record and is
    never fetched; for any other row the company's 8-K filings are fetched
    and scanned, and the record says "Yes" with the selected filing's index
    link, "No" with the NotFound link, or "Error" when the fetch or the scan
    raised. The remote fetch is a parameter: `network` gives, for a CIK, the
    filings the library returns or the failure it raises. */
module FormChecker {
  import opened PyValues
  import opened EdgarLinks
  import opened FilingScan

  /** One input row, through the four dictionary keys the loop reads;
      None stands for an absent key. */
  datatype Row = Row(cik: Option<Cell>, companyName: Option<Cell>, issuerId: Option<Cell>, analystName: Option<Cell>)

  /** The value of the `Form_5.07_Available` column. */
  datatype Status = Yes | No | NoCikFound | Error {
    function Label(): string {
      match this
      case Yes => "Yes"
      case No => "No"
      case NoCikFound => "No CIK Found"
      case Error => "Error"
    }
  }

  /** One output row; `available` is written to the `Form_5.07_Available`
      column as `available.Label()`, and `link` is None where the loop writes
      Python None. */
  datatype Record = Record(cik: Cell, companyName: Cell, issuerId: Cell, analystName: Cell,
                           available: Status, link: Option<string>)

  /** What `Company(cik).get_filings(form="8-K")` gives: the filings in
      library order, or an exception. */
  datatype FetchOutcome = Fetched(filings: seq<Filing>) | FetchFailed

  const Unknown := Text("Unknown")
  const NotAvailable := "Not Available"

  /** The single row built from a CIK typed in by hand (line 43). */
  function ManualEntryRow(manualCik: string): Row {
    Row(Some(Text(manualCik)), Some(Text("Manual Entry")), Some(Text("N/A")), Some(Text("N/A")))
  }

  /** The record the loop appends for `row` (lines 47-101). */
  function RowRecord(row: Row, network: Cell -> FetchOutcome): Record {
    var companyName := row.companyName.GetOr(Unknown);
    var issuerId := row.issuerId.GetOr(Unknown);
    var analystName := row.analystName.GetOr(Unknown);
    if !Truthy(row.cik) then
      Record(Unknown, companyName, issuerId, analystName, NoCikFound, Some(NotAvailable))
    else
      var cik := row.cik.value;
      match network(cik)
      case FetchFailed => Record(cik, companyName, issuerId, analystName, Error, None)
      case Fetched(filings) =>
        match Scan(Render(cik), filings)
        case Found(link) => Record(cik, companyName, issuerId, analystName, Yes, Some(link))
        case NotFound =>
          Record(cik, companyName, issuerId, analystName, No, Some(NotFoundLink(Render(cik))))
        case Raised => Record(cik, companyName, issuerId, analystName, Error, None)
  }

  /** The CIKs the loop asks the library for, in order: those of the rows
      with a usable CIK. */
  function RequestedCiks(rows: seq<Row>): seq<Cell> {
    if rows == [] then []
    else
      var last := rows[|rows| - 1];
      RequestedCiks(rows[..|rows| - 1]) + if Truthy(last.cik) then [last.cik.value] else []
  }

  /** The loop of lines 46-101: one record per row in input order, and the
      CIKs it fetched, in order. */
  method CheckCompanies(rows: seq<Row>, network: Cell -> FetchOutcome)
    returns (results: seq<Record>, requested: seq<Cell>)
    ensures |results| == |rows|
    ensures forall i :: 0 <= i < |rows| ==> results[i] == RowRecord(rows[i], network)
    ensures requested == RequestedCiks(rows)
  {
    results := [];
    requested := [];
    var i := 0;
    while i < |rows|
      invariant 0 <= i <= |rows|
      invariant |results| == i
      invariant forall k :: 0 <= k < i ==> results[k] == RowRecord(rows[k], network)
      invariant requested == RequestedCiks(rows[..i])
    {
      var row := rows[i];
      assert rows[..i + 1][..i] == rows[..i];
      var cik := row.cik;
      var companyName := row.companyName.GetOr(Unknown);
      var issuerId := row.issuerId.GetOr(Unknown);
      var analystName := row.analystName.GetOr(Unknown);
      if !Truthy(cik) {
        results := results + [Record(Unknown, companyName, issuerId, analystName, NoCikFound, Some(NotAvailable))];
      } else {
        requested := requested + [cik.value];
        var reply := network(cik.value);
        match reply {
          case FetchFailed =>
            results := results + [Record(cik.value, companyName, issuerId, analystName, Error, None)];
          case Fetched(filings) =>
            var outcome := ScanFilings(Render(cik.value), filings);
            match outcome {
              case Found(link) =>
                results := results + [Record(cik.value, companyName, issuerId, analystName, Yes, Some(link))];
              case NotFound =>
                var fallback := NotFoundLink(Render(cik.value));
                results := results + [Record(cik.value, companyName, issuerId, analystName, No, Some(fallback))];
              case Raised =>
                results := results + [Record(cik.value, companyName, issuerId, analystName, Error, None)];
            }
        }
      }
      i := i + 1;
    }
    assert rows[..i] == rows;
  }

  /** The `Form_5.07_Available` text determines the outcome: the four
      labels the loop writes are pairwise different. */
  lemma LabelDeterminesStatus(s: Status, t: Status)
    ensures s.Label() == t.Label() <==> s == t
  {
  }

  /** A row without a usable CIK gets the terminal "No CIK Found" record,
      whatever the network would have answered, and only such a row does. */
  lemma NoCikRecord(row: Row, network: Cell -> FetchOutcome, other: Cell -> FetchOutcome)
    ensures RowRecord(row, network).available == NoCikFound <==> !Truthy(row.cik)
    ensures !Truthy(row.cik) ==>
              && RowRecord(row, network).cik == Unknown
              && RowRecord(row, network).link == Some(NotAvailable)
              && RowRecord(row, network) == RowRecord(row, other)
  {
  }

  /** The identity columns are copied from the row, with "Unknown" for an
      absent key, whatever the outcome. */
  lemma PassThroughFields(row: Row, network: Cell -> FetchOutcome)
    ensures var r := RowRecord(row, network);
      && r.companyName == row.companyName.GetOr(Unknown)
      && r.issuerId == row.issuerId.GetOr(Unknown)
      && r.analystName == row.analystName.GetOr(Unknown)
      && (Truthy(row.cik) ==> r.cik == row.cik.value)
  {
  }

  /** "Yes" exactly when the CIK is usable, the fetch succeeds and some
      filing is the first one the scan stops at and is selected there; the
      link is then that filing's index link. */
  lemma {:induction false} YesRecord(row: Row, network: Cell -> FetchOutcome)
    ensures var r := RowRecord(row, network);
      r.available == Yes <==>
        && Truthy(row.cik)
        && network(row.cik.value).Fetched?
        && exists k :: StopsAt(network(row.cik.value).filings, k)
                       && Examine(network(row.cik.value).filings[k]).Select?
    ensures var r := RowRecord(row, network);
      Truthy(row.cik) && network(row.cik.value).Fetched? ==>
        forall k :: StopsAt(network(row.cik.value).filings, k)
                    && Examine(network(row.cik.value).filings[k]).Select? ==>
          r.available == Yes
          && r.link == Some(IndexLink(Render(row.cik.value), Examine(network(row.cik.value).filings[k]).accession))
  {
    if Truthy(row.cik) && network(row.cik.value).Fetched? {
      var filings := network(row.cik.value).filings;
      ScanIsFirstStop(Render(row.cik.value), filings);
      var k := FirstNonPass(filings);
      if k < |filings| {
        assert StopsAt(filings, k);
      }
    }
  }

  /** "No" exactly when the CIK is usable, the fetch succeeds and the scan
      passes over every filing; the link is then the NotFound page. */
  lemma {:induction false} NoRecord(row: Row, network: Cell -> FetchOutcome)
    ensures var r := RowRecord(row, network);
      r.available == No <==>
        Truthy(row.cik) && network(row.cik.value).Fetched? && AllPass(network(row.cik.value).filings)
    ensures var r := RowRecord(row, network);
      r.available == No ==> r.link == Some(NotFoundLink(Render(row.cik.value)))
  {
    if Truthy(row.cik) && network(row.cik.value).Fetched? {
      ScanIsFirstStop(Render(row.cik.value), network(row.cik.value).filings);
    }
  }

  /** "Error" exactly when the CIK is usable and either the fetch fails or
      the first filing the scan stops at raises; no link is written then. */
  lemma {:induction false} ErrorRecord(row: Row, network: Cell -> FetchOutcome)
    ensures var r := RowRecord(row, network);
      r.available == Error <==>
        && Truthy(row.cik)
        && (|| network(row.cik.value).FetchFailed?
            || exists k :: StopsAt(network(row.cik.value).filings, k)
                           && Examine(network(row.cik.value).filings[k]).Raise?)
    ensures var r := RowRecord(row, network);
      r.available == Error ==> r.link == None
  {
    if Truthy(row.cik) && network(row.cik.value).Fetched? {
      var filings := network(row.cik.value).filings;
      ScanIsFirstStop(Render(row.cik.value), filings);
      var k := FirstNonPass(filings);
      if k < |filings| {
        assert StopsAt(filings, k);
      }
    }
  }

  /** A "Yes" link names the row's CIK and the accession number without
      dashes, and every dash in it lies in the CIK segment. */
  lemma {:induction false} YesLinkShape(row: Row, network: Cell -> FetchOutcome)
    requires RowRecord(row, network).available == Yes
    requires '/' !in Render(row.cik.value)
    ensures exists accession ::
      SplitIndexLink(RowRecord(row, network).link.value)
        == Some((Render(row.cik.value), StripDashes(accession)))
    ensures var url := RowRecord(row, network).link.value;
      forall i :: 0 <= i < |url| && url[i] == '-' ==>
        |ArchiveRoot| <= i < |ArchiveRoot| + |Render(row.cik.value)|
  {
    var filings := network(row.cik.value).filings;
    var cik := Render(row.cik.value);
    ScanIsFirstStop(cik, filings);
    var k := FirstNonPass(filings);
    assert StopsAt(filings, k);
    var accession := Examine(filings[k]).accession;
    IndexLinkRoundTrip(cik, accession);
    IndexLinkDashes(cik, accession);
  }

  /** A CIK typed in by hand is never empty (the loop only runs when one
      was given), so the manual row is always fetched and carries the
      fixed identity columns. */
  lemma ManualEntryRecord(manualCik: string, network: Cell -> FetchOutcome)
    requires manualCik != ""
    ensures var r := RowRecord(ManualEntryRow(manualCik), network);
      && r.cik == Text(manualCik)
      && r.companyName == Text("Manual Entry")
      && r.issuerId == Text("N/A")
      && r.analystName == Text("N/A")
      && r.available != NoCikFound
    ensures RequestedCiks([ManualEntryRow(manualCik)]) == [Text(manualCik)]
  {
    assert [ManualEntryRow(manualCik)][..0] == [];
  }

  /** Only usable CIKs are fetched, at most one per row. */
  lemma {:induction false} RequestedCiksUsable(rows: seq<Row>)
    ensures forall c :: c in RequestedCiks(rows) ==> Truthy(Some(c))
    ensures |RequestedCiks(rows)| <= |rows|
  {
    if rows != [] {
      RequestedCiksUsable(rows[..|rows| - 1]);
    }
  }

  /** A row without a usable CIK causes no fetch: taking it out of the
      batch leaves the fetched CIKs unchanged. */
  lemma {:induction false} RequestedSkipsMissing(before: seq<Row>, row: Row, after: seq<Row>)
    requires !Truthy(row.cik)
    ensures RequestedCiks(before + [row] + after) == RequestedCiks(before + after)
    decreases |after|
  {
    if after == [] {
      assert (before + [row] + after)[..|before|] == before;
      assert before + after == before;
    } else {
      var init := after[..|after| - 1];
      assert (before + [row] + after)[..|before + [row] + after| - 1] == before + [row] + init;
      assert (before + after)[..|before + after| - 1] == before + init;
      RequestedSkipsMissing(before, row, init);
    }
  }
}
