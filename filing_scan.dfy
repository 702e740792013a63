/** The scan over one company's 8-K filings (sec_form_checker2.py, lines
    70-81): the first filing whose items mention 5.07 and whose filing date
    falls in 2024 is selected, and the scan stops there. A filing object is
    seen through the three attributes the loop reads; reading `items` or
    `filing_date` when it is None, or `accession_number` when it is absent
    or None, raises, and the exception ends the scan. */
module FilingScan {
  import opened PyValues
  import opened EdgarLinks

  const ItemCode := "5.07"
  const YearPrefix := "2024"

  type Year = y: int | 1 <= y <= 9999 witness 1
  type Month = m: int | 1 <= m <= 12 witness 1
  type Day = d: int | 1 <= d <= 31 witness 1

  /** A filing date, within the range Python's `datetime.date` allows. */
  datatype Date = Date(year: Year, month: Month, day: Day)

  function Pad2(n: int): string
    requires 0 <= n < 100
  {
    [DigitChar(n / 10), DigitChar(n % 10)]
  }

  function Pad4(n: int): string
    requires 0 <= n < 10000
  {
    [DigitChar(n / 1000), DigitChar(n / 100 % 10), DigitChar(n / 10 % 10), DigitChar(n % 10)]
  }

  /** `date.strftime('%Y-%m-%d')` */
  function IsoDate(d: Date): string {
    Pad4(d.year) + "-" + Pad2(d.month) + "-" + Pad2(d.day)
  }

  /** The rendered date starts with "2024" exactly when the filing year is 2024. */
  lemma FiledIn2024(d: Date)
    ensures StartsWith(IsoDate(d), YearPrefix) <==> d.year == 2024
  {
    var y: int := d.year;
    var s := IsoDate(d);
    assert s[..4] == Pad4(y);
    if StartsWith(s, YearPrefix) {
      assert Pad4(y) == YearPrefix;
      assert DigitChar(y / 1000) == '2' && DigitChar(y / 100 % 10) == '0';
      assert DigitChar(y / 10 % 10) == '2' && DigitChar(y % 10) == '4';
      assert y / 1000 == 2 && y / 100 % 10 == 0 && y / 10 % 10 == 2 && y % 10 == 4;
    }
  }

  /** The value of a filing's `items` attribute: a comma-separated string
      of item codes, or a list of codes. */
  datatype Items = ItemText(text: string) | ItemList(codes: seq<string>)

  /** Python's `code in items`: a substring test on a string, a membership
      test on a list. */
  predicate Mentions(items: Items, code: string) {
    match items
    case ItemText(t) => ContainsText(t, code)
    case ItemList(cs) => code in cs
  }

  /** One 8-K filing, through the attributes the scan reads. */
  datatype Filing = Filing(items: Attr<Items>, filingDate: Attr<Date>, accessionNumber: Attr<string>)

  /** What one iteration of the scan does with a filing: go on to the
      next one, select this one, or raise. */
  datatype Step = Pass | Select(accession: string) | Raise

  /** The selection condition (lines 74-77), without the accession number. */
  predicate Qualifies(f: Filing) {
    && f.items.Value? && Mentions(f.items.v, ItemCode)
    && f.filingDate.Value? && StartsWith(IsoDate(f.filingDate.v), YearPrefix)
  }

  /** The body of the scan's loop for one filing, in the order Python
      evaluates it. */
  function Examine(f: Filing): Step {
    match f.items
    case Missing => Pass
    case NoneValue => Raise
    case Value(items) =>
      if !Mentions(items, ItemCode) then Pass
      else match f.filingDate
        case Missing => Pass
        case NoneValue => Raise
        case Value(date) =>
          if !StartsWith(IsoDate(date), YearPrefix) then Pass
          else match f.accessionNumber
            case Value(accession) => Select(accession)
            case _ => Raise
  }

  /** A filing is selected exactly when it meets the selection condition and
      has an accession number; a filing meeting the condition never passes. */
  lemma ExamineSelects(f: Filing)
    ensures Examine(f).Select? <==> Qualifies(f) && f.accessionNumber.Value?
    ensures Examine(f).Select? ==> Examine(f).accession == f.accessionNumber.v
    ensures Qualifies(f) ==> !Examine(f).Pass?
    ensures Examine(f).Pass? && f.items.Value? && f.filingDate.Value? ==> !Qualifies(f)
  {
  }

  /** Exactly when one iteration raises: `'5.07' in None` when `items` is
      None; `None.strftime` when the items mention 5.07 and `filing_date`
      is None; `.replace` on a missing or None `accession_number` when the
      items mention 5.07 and the filing year is 2024. */
  lemma ExamineRaises(f: Filing)
    ensures Examine(f).Raise? <==>
      || f.items.NoneValue?
      || (&& f.items.Value? && Mentions(f.items.v, ItemCode)
          && (|| f.filingDate.NoneValue?
              || (f.filingDate.Value? && f.filingDate.v.year == 2024 && !f.accessionNumber.Value?)))
  {
    if f.filingDate.Value? {
      FiledIn2024(f.filingDate.v);
    }
  }

  /** A filing without an `items` attribute, or without a `filing_date`
      attribute while its `items` is not None, is passed over. */
  lemma ExamineSkipsMissingAttributes(f: Filing)
    requires f.items.Missing? || (f.filingDate.Missing? && !f.items.NoneValue?)
    ensures Examine(f) == Pass
  {
  }

  /** How a scan ends: a link to the selected filing, nothing selected, or an exception. */
  datatype ScanOutcome = Found(link: string) | NotFound | Raised

  /** The scan as a function of the CIK text and the filings, in the order
      the library returns them. */
  function Scan(cik: string, filings: seq<Filing>): ScanOutcome {
    if filings == [] then NotFound
    else match Examine(filings[0])
      case Pass => Scan(cik, filings[1..])
      case Select(accession) => Found(IndexLink(cik, accession))
      case Raise => Raised
  }

  /** Every filing of `filings` is passed over. */
  predicate AllPass(filings: seq<Filing>) {
    forall j :: 0 <= j < |filings| ==> Examine(filings[j]).Pass?
  }

  /** Filing `k` is the first one the scan does not pass over. */
  predicate StopsAt(filings: seq<Filing>, k: int) {
    0 <= k < |filings| && !Examine(filings[k]).Pass? && AllPass(filings[..k])
  }

  /** The scan's outcome is decided by the first filing it does not pass
      over: selected there, raised there, or not found when every filing
      passes. */
  lemma {:induction false} ScanIsFirstStop(cik: string, filings: seq<Filing>)
    ensures Scan(cik, filings) == NotFound <==> AllPass(filings)
    ensures forall k :: StopsAt(filings, k) && Examine(filings[k]).Select? ==>
              Scan(cik, filings) == Found(IndexLink(cik, Examine(filings[k]).accession))
    ensures forall k :: StopsAt(filings, k) && Examine(filings[k]).Raise? ==>
              Scan(cik, filings) == Raised
  {
    if filings != [] {
      ScanIsFirstStop(cik, filings[1..]);
      forall k | StopsAt(filings, k) && k > 0
        ensures StopsAt(filings[1..], k - 1)
      {
        assert filings[..k][0] == filings[0];
        assert filings[1..][..k - 1] == filings[..k][1..];
      }
      if AllPass(filings[1..]) && Examine(filings[0]).Pass? {
        assert forall j :: 0 < j < |filings| ==> filings[j] == filings[1..][j - 1];
      }
    }
  }

  /** When no filing raises, a link is found exactly when some filing is
      selectable, and it is the link of the first one. */
  lemma ScanFoundWithoutErrors(cik: string, filings: seq<Filing>)
    requires forall j :: 0 <= j < |filings| ==> !Examine(filings[j]).Raise?
    ensures Scan(cik, filings).Found? <==> exists k :: 0 <= k < |filings| && Examine(filings[k]).Select?
    ensures forall k :: 0 <= k < |filings| && Examine(filings[k]).Select? && AllPass(filings[..k]) ==>
              Scan(cik, filings) == Found(IndexLink(cik, Examine(filings[k]).accession))
  {
    ScanIsFirstStop(cik, filings);
    if k :| 0 <= k < |filings| && Examine(filings[k]).Select? {
      var first := FirstNonPass(filings);
      assert StopsAt(filings, first);
    } else {
      assert AllPass(filings);
    }
  }

  /** Position of the first filing the scan does not pass over, or the
      number of filings when it passes over all of them. */
  function FirstNonPass(filings: seq<Filing>): (k: nat)
    ensures k <= |filings|
    ensures AllPass(filings[..k])
    ensures k < |filings| ==> !Examine(filings[k]).Pass?
  {
    if filings == [] then 0
    else if !Examine(filings[0]).Pass? then 0
    else
      var k := 1 + FirstNonPass(filings[1..]);
      assert forall j :: 0 < j < k ==> filings[..k][j] == filings[1..][..k - 1][j - 1];
      k
  }

  /** Filings after the one that decides the scan never change its outcome;
      if the scan passes over every filing of `filings`, the outcome is that
      of the filings that follow. */
  lemma {:induction false} ScanAppend(cik: string, filings: seq<Filing>, later: seq<Filing>)
    ensures Scan(cik, filings + later) ==
            if Scan(cik, filings) == NotFound then Scan(cik, later) else Scan(cik, filings)
  {
    if filings == [] {
      assert filings + later == later;
    } else {
      assert (filings + later)[0] == filings[0];
      assert (filings + later)[1..] == filings[1..] + later;
      ScanAppend(cik, filings[1..], later);
    }
  }

  /** A filing that is passed over can be taken out of the list without
      changing the outcome: it can never be the one selected. */
  lemma ScanIgnoresPassed(cik: string, before: seq<Filing>, f: Filing, after: seq<Filing>)
    requires Examine(f) == Pass
    ensures Scan(cik, before + [f] + after) == Scan(cik, before + after)
  {
    ScanAppend(cik, before, [f] + after);
    ScanAppend(cik, before, after);
    assert before + [f] + after == before + ([f] + after);
    assert ([f] + after)[1..] == after;
  }

  /** The loop of lines 70-81: walk the filings in order, stop with a link
      at the first selected one, or let the exception out. */
  method ScanFilings(cik: string, filings: seq<Filing>) returns (outcome: ScanOutcome)
    ensures outcome == Scan(cik, filings)
  {
    var found := false;
    var link: Option<string> := None;
    var i := 0;
    while i < |filings|
      invariant 0 <= i <= |filings|
      invariant !found
      invariant Scan(cik, filings) == Scan(cik, filings[i..])
    {
      var filing := filings[i];
      assert filings[i..][0] == filing && filings[i..][1..] == filings[i + 1..];
      match filing.items {
        case Missing =>
        case NoneValue =>
          outcome := Raised;
          return;
        case Value(items) =>
          if Mentions(items, ItemCode) {
            match filing.filingDate {
              case Missing =>
              case NoneValue =>
                outcome := Raised;
                return;
              case Value(date) =>
                var filingDate := IsoDate(date);
                if StartsWith(filingDate, YearPrefix) {
                  match filing.accessionNumber {
                    case Value(accession) =>
                      found := true;
                      link := Some(IndexLink(cik, accession));
                      break;
                    case _ =>
                      outcome := Raised;
                      return;
                  }
                }
            }
          }
      }
      i := i + 1;
    }
    if found {
      outcome := Found(link.value);
    } else {
      outcome := NotFound;
    }
  }
}
