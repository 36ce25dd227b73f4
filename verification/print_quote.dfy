/** The print shop's quote logic (app.py): the per-page rate rule, the
    aggregation of page counts over the uploaded files, and the check of
    required order fields. Page counts of PDF files come from a PDF reader
    that is not part of this model; each upload carries the reader's outcome
    for it as data. */
module PrintQuote {
  import Text

  const BwRate: int := 2
  const ColorRate: int := 10
  const GlossyRate: int := 20

  // ---------------------------------------------------------------------
  // calculate_price
  // ---------------------------------------------------------------------

  /** The per-page rate: glossy paper overrides the colour mode; otherwise
      "Full Color" costs the colour rate and every other mode the black and
      white rate. */
  function Rate(colorMode: string, paperType: string): (r: int)
    ensures r == BwRate || r == ColorRate || r == GlossyRate
    ensures r == GlossyRate <==> paperType == "Glossy"
    ensures r == ColorRate <==> paperType != "Glossy" && colorMode == "Full Color"
  {
    if paperType == "Glossy" then GlossyRate
    else if colorMode == "Full Color" then ColorRate
    else BwRate
  }

  /** `calculate_price(pages, color_mode, paper_type)`. */
  function CalculatePrice(pages: int, colorMode: string, paperType: string): (r: int)
    ensures paperType == "Glossy" ==> r == pages * 20
    ensures paperType != "Glossy" && colorMode == "Full Color" ==> r == pages * 10
    ensures paperType != "Glossy" && colorMode != "Full Color" ==> r == pages * 2
  {
    pages * Rate(colorMode, paperType)
  }

  /** For a non-negative page count the price is non-negative, zero for
      zero pages, and black and white never costs more than colour, which
      never costs more than glossy paper. */
  lemma PriceOrdering(pages: int, otherMode: string, otherPaper: string)
    requires pages >= 0
    requires otherMode != "Full Color" && otherPaper != "Glossy"
    ensures 0 <= CalculatePrice(pages, otherMode, otherPaper)
    ensures CalculatePrice(pages, otherMode, otherPaper) <= CalculatePrice(pages, "Full Color", otherPaper)
    ensures CalculatePrice(pages, "Full Color", otherPaper) <= CalculatePrice(pages, otherMode, "Glossy")
    ensures pages == 0 ==> CalculatePrice(pages, otherMode, otherPaper) == 0
    ensures pages == 0 ==> CalculatePrice(pages, "Full Color", otherPaper) == 0
    ensures pages == 0 ==> CalculatePrice(pages, otherMode, "Glossy") == 0
  {
  }

  /** The paper name the views hand to the price rule: "Glossy" stays,
      every other choice becomes "Standard". */
  function PriceLogicPaper(paperChoice: string): (r: string)
    ensures r == "Glossy" || r == "Standard"
    ensures r == "Glossy" <==> paperChoice == "Glossy"
  {
    if paperChoice == "Glossy" then "Glossy" else "Standard"
  }

  /** The mapping of paper choices is harmless: the quote of the views
      equals the price of the choice itself, and two non-glossy choices
      always give the same quote. */
  lemma QuoteDependsOnlyOnGlossiness(pages: int, colorMode: string, paper1: string, paper2: string)
    ensures CalculatePrice(pages, colorMode, PriceLogicPaper(paper1)) == CalculatePrice(pages, colorMode, paper1)
    ensures (paper1 == "Glossy" <==> paper2 == "Glossy") ==>
              CalculatePrice(pages, colorMode, paper1) == CalculatePrice(pages, colorMode, paper2)
  {
  }

  // ---------------------------------------------------------------------
  // count_pages
  // ---------------------------------------------------------------------

  /** What the PDF reader makes of a file: a page count, or an exception. */
  datatype PdfReading = Pages(n: nat) | ReadFails

  /** An uploaded file: its name, its MIME type, and what reading it as a
      PDF would give. */
  datatype UploadedFile = UploadedFile(name: string, mimeType: string, reading: PdfReading)

  const PdfMime: string := "application/pdf"

  predicate IsPdf(f: UploadedFile) {
    f.mimeType == PdfMime
  }

  /** Pages one file adds to the total: the PDF's page count, nothing for a
      PDF the reader fails on, and one page for any other file. */
  function FilePages(f: UploadedFile): nat
  {
    if IsPdf(f) then
      match f.reading
      case Pages(n) => n
      case ReadFails => 0
    else 1
  }

  /** The line of the file breakdown that describes one file. */
  function DetailLine(f: UploadedFile): string
  {
    if IsPdf(f) then
      match f.reading
      case Pages(n) => f.name + ": " + Text.NatToString(n) + " pages"
      case ReadFails => f.name + ": Error counting"
    else f.name + ": 1 page (Image/Doc)"
  }

  /** Total pages of a list of files, summed over the files. */
  function TotalPages(files: seq<UploadedFile>): nat
  {
    if files == [] then 0 else TotalPages(files[..|files| - 1]) + FilePages(files[|files| - 1])
  }

  /** Sum of the page counts of the PDFs the reader could read. */
  function ReadablePdfPages(files: seq<UploadedFile>): nat
  {
    if files == [] then 0
    else ReadablePdfPages(files[1..]) + (if IsPdf(files[0]) && files[0].reading.Pages? then files[0].reading.n else 0)
  }

  /** Number of files that are not PDFs. */
  function NonPdfCount(files: seq<UploadedFile>): nat
  {
    if files == [] then 0 else NonPdfCount(files[1..]) + (if IsPdf(files[0]) then 0 else 1)
  }

  /** The total splits into the readable PDFs' pages plus one per non-PDF
      file; unreadable PDFs contribute nothing. */
  lemma {:induction false} TotalPagesDecomposes(files: seq<UploadedFile>)
    ensures TotalPages(files) == ReadablePdfPages(files) + NonPdfCount(files)
    decreases |files|
  {
    if files != [] {
      TotalPagesDecomposes(files[1..]);
      TotalPagesCons(files[0], files[1..]);
      assert [files[0]] + files[1..] == files;
    }
  }

  lemma {:induction false} TotalPagesCons(f: UploadedFile, rest: seq<UploadedFile>)
    ensures TotalPages([f] + rest) == FilePages(f) + TotalPages(rest)
    decreases |rest|
  {
    if rest != [] {
      var last := rest[|rest| - 1];
      var init := rest[..|rest| - 1];
      assert ([f] + rest)[..|[f] + rest| - 1] == [f] + init;
      TotalPagesCons(f, init);
    } else {
      assert ([f] + rest)[..0] == [];
    }
  }

  /** `count_pages(uploaded_files)`: the detected total and one breakdown
      line per file, in upload order. */
  method CountPages(files: seq<UploadedFile>) returns (total: nat, details: seq<string>)
    ensures total == ReadablePdfPages(files) + NonPdfCount(files)
    ensures |details| == |files|
    ensures forall i :: 0 <= i < |files| ==> details[i] == DetailLine(files[i])
  {
    total := 0;
    details := [];
    var k := 0;
    while k < |files|
      invariant 0 <= k <= |files|
      invariant total == TotalPages(files[..k])
      invariant |details| == k
      invariant forall i :: 0 <= i < k ==> details[i] == DetailLine(files[i])
    {
      assert files[..k + 1][..k] == files[..k];
      assert TotalPages(files[..k + 1]) == TotalPages(files[..k]) + FilePages(files[k]);
      total := total + FilePages(files[k]);
      details := details + [DetailLine(files[k])];
      k := k + 1;
    }
    assert files[..k] == files;
    TotalPagesDecomposes(files);
  }

  // ---------------------------------------------------------------------
  // The order form
  // ---------------------------------------------------------------------

  /** The required fields, in the order the form reports them. */
  const RequiredFields: seq<string> := ["Name", "Phone", "Files"]

  /** Position of a required field in `RequiredFields`. */
  function FieldRank(field: string): (k: nat)
    requires field in RequiredFields
    ensures k < |RequiredFields| && RequiredFields[k] == field
  {
    if field == "Name" then 0 else if field == "Phone" then 1 else 2
  }

  /** The `missing` list of the submit handler: every required field whose
      input is empty, each once, in the order of `RequiredFields`. */
  function MissingFields(name: string, phone: string, files: seq<UploadedFile>): (r: seq<string>)
    ensures "Name" in r <==> name == ""
    ensures "Phone" in r <==> phone == ""
    ensures "Files" in r <==> files == []
    ensures forall i :: 0 <= i < |r| ==> r[i] in RequiredFields
    ensures forall i, j :: 0 <= i < j < |r| ==> FieldRank(r[i]) < FieldRank(r[j])
  {
    (if name == "" then ["Name"] else [])
    + (if phone == "" then ["Phone"] else [])
    + (if files == [] then ["Files"] else [])
  }

  /** Outcome of pressing the submit button. */
  datatype Submission = Rejected(missing: seq<string>) | Sent

  /** An order is sent only when no required field is missing; otherwise the
      user is told which fields to provide. */
  function Submit(name: string, phone: string, files: seq<UploadedFile>): (r: Submission)
    ensures r.Sent? <==> name != "" && phone != "" && files != []
    ensures r.Rejected? ==> r.missing != [] && r.missing == MissingFields(name, phone, files)
  {
    var missing := MissingFields(name, phone, files);
    if missing != [] then Rejected(missing) else Sent
  }

  // ---------------------------------------------------------------------
  // The live quote of the order view
  // ---------------------------------------------------------------------

  /** The quote shown while an order is filled in: the detected pages of
      the uploads (zero with no uploads) priced with the mapped paper type. */
  function LiveQuote(files: seq<UploadedFile>, colorMode: string, paperChoice: string): (r: int)
    ensures r == CalculatePrice(ReadablePdfPages(files) + NonPdfCount(files), colorMode, paperChoice)
    ensures r >= 0
    ensures files == [] ==> r == 0
  {
    var detected := if files != [] then TotalPages(files) else 0;
    TotalPagesDecomposes(files);
    CalculatePrice(detected, colorMode, PriceLogicPaper(paperChoice))
  }
}
