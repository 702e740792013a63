/** The two EDGAR archive links the checker writes into its results: the
    index page of a selected filing, built from the CIK as the row wrote it
    and the accession number with its dashes removed, and the fallback page
    used when no filing was selected. */
module EdgarLinks {
  import opened PyValues

  const ArchiveRoot := "https://www.sec.gov/Archives/edgar/data/"
  const IndexPage := "/index.html"
  const NotFoundPage := "/NotFound.htm"

  /** `accession.replace('-', '')`: no dash is left, and every other
      character is kept exactly as often as it occurs. */
  function StripDashes(s: string): (r: string)
    ensures '-' !in r
    ensures |r| <= |s|
    ensures forall ch :: ch != '-' ==> multiset(r)[ch] == multiset(s)[ch]
  {
    if s == [] then []
    else
      assert s == [s[0]] + s[1..];
      (if s[0] == '-' then [] else [s[0]]) + StripDashes(s[1..])
  }

  /** Removing dashes distributes over concatenation, so the kept characters
      stay in their original order. */
  lemma {:induction false} StripDashesAppend(a: string, b: string)
    ensures StripDashes(a + b) == StripDashes(a) + StripDashes(b)
  {
    if a == [] {
      assert a + b == b;
    } else {
      assert (a + b)[0] == a[0];
      assert (a + b)[1..] == a[1..] + b;
      StripDashesAppend(a[1..], b);
    }
  }

  /** A string without dashes comes back unchanged; in particular removing
      dashes twice is the same as removing them once. */
  lemma {:induction false} StripDashesDashFree(s: string)
    requires '-' !in s
    ensures StripDashes(s) == s
  {
    if s != [] {
      StripDashesDashFree(s[1..]);
    }
  }

  /** The link to a filing's index page (lines 79-80). */
  function IndexLink(cik: string, accession: string): string {
    ArchiveRoot + cik + "/" + StripDashes(accession) + IndexPage
  }

  /** The fallback link written when no filing was selected (line 89). */
  function NotFoundLink(cik: string): string {
    ArchiveRoot + cik + NotFoundPage
  }

  /** Every dash in an index link lies in the CIK segment: none comes from
      the accession number or from the fixed parts of the link. */
  lemma IndexLinkDashes(cik: string, accession: string)
    ensures var url := IndexLink(cik, accession);
      forall i :: 0 <= i < |url| && url[i] == '-' ==>
        |ArchiveRoot| <= i < |ArchiveRoot| + |cik|
  {
    var stripped := StripDashes(accession);
    var url := IndexLink(cik, accession);
    assert '-' !in ArchiveRoot;
    assert '-' !in IndexPage;
    var rest := "/" + stripped + IndexPage;
    assert '-' !in rest;
    assert url == ArchiveRoot + cik + rest;
  }

  /** Position of the first `ch` in `s`, or `|s|` when there is none. */
  function FirstIndexOf(s: string, ch: char): (k: nat)
    ensures k <= |s|
    ensures k < |s| ==> s[k] == ch
    ensures forall j :: 0 <= j < k ==> s[j] != ch
  {
    if s == [] then 0
    else if s[0] == ch then 0
    else 1 + FirstIndexOf(s[1..], ch)
  }

  /** Reads an index link back into its CIK segment and its accession
      segment; None for anything that is not an index link. */
  function SplitIndexLink(url: string): Option<(string, string)> {
    if StartsWith(url, ArchiveRoot) && EndsWith(url, IndexPage)
       && |ArchiveRoot| + |IndexPage| <= |url|
    then
      var middle := url[|ArchiveRoot|..|url| - |IndexPage|];
      var k := FirstIndexOf(middle, '/');
      if k < |middle| then Some((middle[..k], middle[k + 1..])) else None
    else None
  }

  /** An index link determines the CIK it was built from and the accession
      number without its dashes, whenever the CIK holds no slash. */
  lemma IndexLinkRoundTrip(cik: string, accession: string)
    requires '/' !in cik
    ensures SplitIndexLink(IndexLink(cik, accession)) == Some((cik, StripDashes(accession)))
  {
    var url := IndexLink(cik, accession);
    var stripped := StripDashes(accession);
    assert url == ArchiveRoot + (cik + "/" + stripped) + IndexPage;
    assert url[..|ArchiveRoot|] == ArchiveRoot;
    assert url[|url| - |IndexPage|..] == IndexPage;
    var middle := url[|ArchiveRoot|..|url| - |IndexPage|];
    assert middle == cik + "/" + stripped;
    assert middle[|cik|] == '/';
    assert forall j :: 0 <= j < |cik| ==> middle[j] == cik[j];
    assert FirstIndexOf(middle, '/') == |cik|;
    assert middle[..|cik|] == cik;
    assert middle[|cik| + 1..] == stripped;
  }

  /** The fallback link is never mistaken for an index link. */
  lemma NotFoundIsNotIndexLink(cik: string)
    ensures SplitIndexLink(NotFoundLink(cik)) == None
  {
    var url := NotFoundLink(cik);
    assert url[|url| - |IndexPage|..] == NotFoundPage[2..];
    assert NotFoundPage[2..][1] != IndexPage[1];
  }
}
