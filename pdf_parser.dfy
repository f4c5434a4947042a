/** `PDFParser.extract_text` and `PDFParser.parse_pdf`: pick the pages of the first extractor
    that yields any, then clean, chunk, filter and number the chunks of every page. The two
    extractors are not modelled; what each returned for the file is a parameter. */
module PdfParser {
  import opened Wrappers
  import opened Strings
  import opened TextCleaning
  import opened Chunking

  const DefaultChunkSize: int := 512
  const DefaultChunkOverlap: int := 100

  /** A chunk is kept only when its stripped text is longer than this. */
  const MinChunkLength: nat := 50

  /** A `PDFParser`: its two settings never change after construction. */
  datatype Parser = Parser(chunkSize: int, chunkOverlap: int)

  /** `PDFParser()` */
  const DefaultParser := Parser(DefaultChunkSize, DefaultChunkOverlap)

  /** One `(page_num, text)` pair of an extractor. */
  datatype Page = Page(number: int, text: string)

  /** One dictionary of the list `parse_pdf` returns. */
  datatype ChunkRecord = ChunkRecord(text: string, chunkIndex: nat, pageNumber: int, fileName: string)

  /** `extract_text`: the pdfplumber pages when there are any, otherwise the PyPDF2 pages, and an
      error when neither extractor found a page with text. The PyPDF2 pages matter only when
      pdfplumber found none. */
  function ExtractText(fromPdfplumber: seq<Page>, fromPypdf2: seq<Page>, fileName: string)
    : (r: Result<seq<Page>>)
    ensures r.Success? ==> r.value != []
    ensures r.Failure? <==> fromPdfplumber == [] && fromPypdf2 == []
    ensures r.Failure? ==> r.error == "Failed to extract text from " + fileName
    ensures fromPdfplumber != [] ==> r == Success(fromPdfplumber)
    ensures fromPdfplumber == [] && r.Success? ==> r.value == fromPypdf2
  {
    if fromPdfplumber != [] then Success(fromPdfplumber)
    else if fromPypdf2 != [] then Success(fromPypdf2)
    else Failure("Failed to extract text from " + fileName)
  }

  /** The chunks `chunk_text` makes of one page, none when the cleaned text is empty. */
  function PageChunks(parser: Parser, text: string): seq<string>
  {
    var cleaned := CleanText(text);
    if cleaned == "" then [] else Chunks(SplitSentences(cleaned), parser.chunkSize, parser.chunkOverlap)
  }

  predicate LongEnough(chunk: string)
  {
    |Strip(chunk)| > MinChunkLength
  }

  /** The chunks long enough to keep, in order. */
  function KeepLong(chunks: seq<string>): (r: seq<string>)
    ensures |r| <= |chunks|
    decreases |chunks|
  {
    if chunks == [] then []
    else KeepLong(chunks[..|chunks| - 1]) + (if LongEnough(chunks[|chunks| - 1]) then [chunks[|chunks| - 1]] else [])
  }

  /** The kept chunks are exactly the chunks that are long enough. */
  lemma {:induction false} KeepLongMembers(chunks: seq<string>)
    ensures forall c :: c in KeepLong(chunks) <==> c in chunks && LongEnough(c)
    decreases |chunks|
  {
    if chunks != [] {
      var init := chunks[..|chunks| - 1];
      var last := chunks[|chunks| - 1];
      assert chunks == init + [last];
      KeepLongMembers(init);
    }
  }

  /** Records for `texts` on one page, numbered from `start`. */
  function Numbered(texts: seq<string>, page: int, fileName: string, start: nat): (r: seq<ChunkRecord>)
    ensures |r| == |texts|
    decreases |texts|
  {
    if texts == [] then []
    else
      Numbered(texts[..|texts| - 1], page, fileName, start)
      + [ChunkRecord(texts[|texts| - 1], start + |texts| - 1, page, fileName)]
  }

  /** The k-th record holds the k-th text and the index `start + k`. */
  lemma {:induction false} NumberedAt(texts: seq<string>, page: int, fileName: string, start: nat)
    ensures forall k :: 0 <= k < |texts| ==>
      Numbered(texts, page, fileName, start)[k] == ChunkRecord(texts[k], start + k, page, fileName)
    decreases |texts|
  {
    if texts != [] {
      var init := texts[..|texts| - 1];
      NumberedAt(init, page, fileName, start);
      var r := Numbered(texts, page, fileName, start);
      forall k | 0 <= k < |texts| ensures r[k] == ChunkRecord(texts[k], start + k, page, fileName) {
        if k < |init| {
          assert r[k] == Numbered(init, page, fileName, start)[k];
        }
      }
    }
  }

  /** The chunks of one page that `parse_pdf` keeps, with the page's number. */
  datatype KeptChunks = KeptChunks(pageNumber: int, texts: seq<string>)

  function Kept(parser: Parser, page: Page): (r: KeptChunks)
    ensures r.pageNumber == page.number
  {
    KeptChunks(page.number, KeepLong(PageChunks(parser, page.text)))
  }

  /** `Kept` for every page, in order. */
  function KeptPages(parser: Parser, pages: seq<Page>): (r: seq<KeptChunks>)
    ensures |r| == |pages|
    decreases |pages|
  {
    if pages == [] then []
    else KeptPages(parser, pages[..|pages| - 1]) + [Kept(parser, pages[|pages| - 1])]
  }

  /** Page by page, the kept chunks numbered on from the records of the earlier pages. */
  function NumberAll(kept: seq<KeptChunks>, fileName: string): seq<ChunkRecord>
    decreases |kept|
  {
    if kept == [] then []
    else
      var done := NumberAll(kept[..|kept| - 1], fileName);
      var last := kept[|kept| - 1];
      done + Numbered(last.texts, last.pageNumber, fileName, |done|)
  }

  /** What `parse_pdf` returns for these extracted pages. */
  function Records(parser: Parser, pages: seq<Page>, fileName: string): seq<ChunkRecord>
  {
    NumberAll(KeptPages(parser, pages), fileName)
  }

  /** `parse_pdf`: extraction errors propagate unchanged; otherwise the records of all pages. */
  method ParsePdf(parser: Parser, fromPdfplumber: seq<Page>, fromPypdf2: seq<Page>, fileName: string)
    returns (r: Result<seq<ChunkRecord>>)
    ensures ExtractText(fromPdfplumber, fromPypdf2, fileName).Failure? ==>
      r == Failure(ExtractText(fromPdfplumber, fromPypdf2, fileName).error)
    ensures ExtractText(fromPdfplumber, fromPypdf2, fileName).Success? ==>
      r == Success(Records(parser, ExtractText(fromPdfplumber, fromPypdf2, fileName).value, fileName))
  {
    var extracted := ExtractText(fromPdfplumber, fromPypdf2, fileName);
    if extracted.Failure? {
      return Failure(extracted.error);
    }
    var pages := extracted.value;
    var allChunks: seq<ChunkRecord> := [];
    var chunkIndex: nat := 0;
    for i := 0 to |pages|
      invariant allChunks == NumberAll(KeptPages(parser, pages[..i]), fileName)
      invariant chunkIndex == |allChunks|
    {
      var page := pages[i];
      ghost var before := allChunks;
      NextPage(parser, pages, i, fileName);
      var cleaned := CleanText(page.text);
      if cleaned == "" {
        continue;
      }
      var chunks := ChunkText(cleaned, parser.chunkSize, parser.chunkOverlap);
      allChunks, chunkIndex := AppendKept(allChunks, chunkIndex, chunks, page.number, fileName);
    }
    assert pages[..|pages|] == pages;
    return Success(allChunks);
  }

  /** The inner loop of `parse_pdf`: append a record for every chunk of one page that is long
      enough, numbering on from `chunkIndex`. */
  method AppendKept(allChunks: seq<ChunkRecord>, chunkIndex: nat, chunks: seq<string>, pageNumber: int,
                    fileName: string)
    returns (allChunks': seq<ChunkRecord>, chunkIndex': nat)
    requires chunkIndex == |allChunks|
    ensures allChunks' == allChunks + Numbered(KeepLong(chunks), pageNumber, fileName, |allChunks|)
    ensures chunkIndex' == |allChunks'|
  {
    allChunks', chunkIndex' := allChunks, chunkIndex;
    ghost var added: seq<ChunkRecord> := [];
    assert chunks[..0] == [];
    assert allChunks' == allChunks + added;
    for j := 0 to |chunks|
      invariant added == Numbered(KeepLong(chunks[..j]), pageNumber, fileName, |allChunks|)
      invariant allChunks' == allChunks + added
      invariant chunkIndex' == |allChunks'|
    {
      var chunk := chunks[j];
      KeepLongSnoc(chunks, j);
      if |Strip(chunk)| > MinChunkLength {
        NumberedSnoc(KeepLong(chunks[..j]), chunk, pageNumber, fileName, |allChunks|);
        var rec := ChunkRecord(chunk, chunkIndex', pageNumber, fileName);
        AppendAssoc(allChunks, added, [rec]);
        allChunks' := allChunks' + [rec];
        added := added + [rec];
        chunkIndex' := chunkIndex' + 1;
      }
    }
    assert chunks[..|chunks|] == chunks;
  }

  /** One more chunk is kept when it is long enough. */
  lemma KeepLongSnoc(chunks: seq<string>, j: nat)
    requires j < |chunks|
    ensures LongEnough(chunks[j]) ==> KeepLong(chunks[..j + 1]) == KeepLong(chunks[..j]) + [chunks[j]]
    ensures !LongEnough(chunks[j]) ==> KeepLong(chunks[..j + 1]) == KeepLong(chunks[..j])
  {
    assert chunks[..j + 1][..j] == chunks[..j];
    assert KeepLong(chunks[..j]) + [] == KeepLong(chunks[..j]);
  }

  /** Numbering one more text adds one record, numbered after the others. */
  lemma NumberedSnoc(texts: seq<string>, c: string, page: int, fileName: string, start: nat)
    ensures Numbered(texts + [c], page, fileName, start)
      == Numbered(texts, page, fileName, start) + [ChunkRecord(c, start + |texts|, page, fileName)]
  {
    assert (texts + [c])[..|texts|] == texts;
  }

  /** One more page adds its kept chunks, numbered on. */
  lemma NextPage(parser: Parser, pages: seq<Page>, i: nat, fileName: string)
    requires i < |pages|
    ensures var done := NumberAll(KeptPages(parser, pages[..i]), fileName);
      NumberAll(KeptPages(parser, pages[..i + 1]), fileName)
      == done + Numbered(KeepLong(PageChunks(parser, pages[i].text)), pages[i].number, fileName, |done|)
  {
    assert pages[..i + 1][..i] == pages[..i];
    var kept := KeptPages(parser, pages[..i + 1]);
    assert kept[..i] == KeptPages(parser, pages[..i]);
  }

  /** Numbering gives indices 0, 1, 2, ... and the file name to every record. */
  lemma {:induction false} NumberAllIndexed(kept: seq<KeptChunks>, fileName: string)
    ensures forall k :: 0 <= k < |NumberAll(kept, fileName)| ==>
      NumberAll(kept, fileName)[k].chunkIndex == k && NumberAll(kept, fileName)[k].fileName == fileName
    decreases |kept|
  {
    if kept != [] {
      var init := kept[..|kept| - 1];
      var done := NumberAll(init, fileName);
      var last := kept[|kept| - 1];
      var added := Numbered(last.texts, last.pageNumber, fileName, |done|);
      var r := NumberAll(kept, fileName);
      assert r == done + added;
      NumberAllIndexed(init, fileName);
      NumberedAt(last.texts, last.pageNumber, fileName, |done|);
      forall k | 0 <= k < |r| ensures r[k].chunkIndex == k && r[k].fileName == fileName {
        if k < |done| {
          assert r[k] == done[k];
        } else {
          assert r[k] == added[k - |done|];
        }
      }
    }
  }

  /** The record is one of the texts of some page's kept chunks, with that page's number. */
  predicate FromKept(rec: ChunkRecord, kept: seq<KeptChunks>)
  {
    exists j :: 0 <= j < |kept| && rec.pageNumber == kept[j].pageNumber && rec.text in kept[j].texts
  }

  lemma {:induction false} NumberAllFrom(kept: seq<KeptChunks>, fileName: string)
    ensures forall k :: 0 <= k < |NumberAll(kept, fileName)| ==> FromKept(NumberAll(kept, fileName)[k], kept)
    decreases |kept|
  {
    if kept != [] {
      var init := kept[..|kept| - 1];
      var done := NumberAll(init, fileName);
      var last := kept[|kept| - 1];
      var added := Numbered(last.texts, last.pageNumber, fileName, |done|);
      var r := NumberAll(kept, fileName);
      assert r == done + added;
      NumberAllFrom(init, fileName);
      NumberedAt(last.texts, last.pageNumber, fileName, |done|);
      forall k | 0 <= k < |r| ensures FromKept(r[k], kept) {
        if k < |done| {
          assert r[k] == done[k];
          assert FromKept(done[k], init);
          var j :| 0 <= j < |init| && done[k].pageNumber == init[j].pageNumber && done[k].text in init[j].texts;
          assert init[j] == kept[j];
        } else {
          assert r[k] == added[k - |done|];
          assert r[k].text == last.texts[k - |done|];
          assert kept[|kept| - 1] == last;
        }
      }
    }
  }

  /** `NumberAll` of a prefix is a prefix. */
  lemma {:induction false} NumberAllPrefix(kept: seq<KeptChunks>, i: nat, fileName: string)
    requires i <= |kept|
    ensures NumberAll(kept[..i], fileName) <= NumberAll(kept, fileName)
    decreases |kept| - i
  {
    if i < |kept| {
      var init := kept[..|kept| - 1];
      assert init[..i] == kept[..i];
      NumberAllPrefix(init, i, fileName);
    } else {
      assert kept[..i] == kept;
    }
  }

  /** The i-th element of `KeptPages` is `Kept` of the i-th page. */
  lemma {:induction false} KeptPagesAt(parser: Parser, pages: seq<Page>, j: nat)
    requires j < |pages|
    ensures KeptPages(parser, pages)[j] == Kept(parser, pages[j])
    decreases |pages|
  {
    if j < |pages| - 1 {
      KeptPagesAt(parser, pages[..|pages| - 1], j);
    }
  }

  /** The records are numbered 0, 1, 2, ... across all pages and every one names the file. */
  lemma RecordsIndexed(parser: Parser, pages: seq<Page>, fileName: string)
    ensures forall k :: 0 <= k < |Records(parser, pages, fileName)| ==>
      Records(parser, pages, fileName)[k].chunkIndex == k
      && Records(parser, pages, fileName)[k].fileName == fileName
  {
    NumberAllIndexed(KeptPages(parser, pages), fileName);
  }

  /** The record carries the number of one of the pages and is one of the chunks `chunk_text` made
      of that page's cleaned text. */
  predicate FromPage(rec: ChunkRecord, parser: Parser, pages: seq<Page>)
  {
    exists j :: 0 <= j < |pages| && rec.pageNumber == pages[j].number
      && rec.text in PageChunks(parser, pages[j].text)
  }

  /** Every record comes from one of the pages: it carries that page's number, it is one of the
      chunks `chunk_text` made of that page's cleaned text, and it has more than
      `MinChunkLength` characters once stripped. */
  lemma RecordsFromPages(parser: Parser, pages: seq<Page>, fileName: string)
    ensures forall k :: 0 <= k < |Records(parser, pages, fileName)| ==>
      LongEnough(Records(parser, pages, fileName)[k].text)
      && FromPage(Records(parser, pages, fileName)[k], parser, pages)
  {
    var kept := KeptPages(parser, pages);
    var r := Records(parser, pages, fileName);
    NumberAllFrom(kept, fileName);
    forall k | 0 <= k < |r| ensures LongEnough(r[k].text) && FromPage(r[k], parser, pages) {
      assert FromKept(r[k], kept);
      var j :| 0 <= j < |kept| && r[k].pageNumber == kept[j].pageNumber && r[k].text in kept[j].texts;
      KeptPagesAt(parser, pages, j);
      KeepLongMembers(PageChunks(parser, pages[j].text));
    }
  }

  /** A page whose cleaned text is empty adds no record. */
  lemma RecordsSkipBlankPage(parser: Parser, pages: seq<Page>, page: Page, fileName: string)
    requires CleanText(page.text) == ""
    ensures Records(parser, pages + [page], fileName) == Records(parser, pages, fileName)
  {
    assert (pages + [page])[..|pages|] == pages;
    var kept := KeptPages(parser, pages + [page]);
    assert kept[..|pages|] == KeptPages(parser, pages);
  }

  /** Later pages only add records after those of earlier pages. */
  lemma {:induction false} RecordsPrefix(parser: Parser, pages: seq<Page>, i: nat, fileName: string)
    requires i <= |pages|
    ensures Records(parser, pages[..i], fileName) <= Records(parser, pages, fileName)
    decreases |pages| - i
  {
    KeptPagesPrefix(parser, pages, i);
    NumberAllPrefix(KeptPages(parser, pages), i, fileName);
  }

  lemma {:induction false} KeptPagesPrefix(parser: Parser, pages: seq<Page>, i: nat)
    requires i <= |pages|
    ensures KeptPages(parser, pages)[..i] == KeptPages(parser, pages[..i])
    decreases |pages| - i
  {
    if i < |pages| {
      var init := pages[..|pages| - 1];
      assert init[..i] == pages[..i];
      KeptPagesPrefix(parser, init, i);
    } else {
      assert pages[..i] == pages;
    }
  }
}
