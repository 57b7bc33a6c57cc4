/**
 * From page text to records: the two transaction layouts, the normalisation
 * of one matched tuple into a record, the per-page choice between the
 * layouts and the concatenation of the pages of a document.
 *
 * The pattern matching itself is not modelled: a layout's recogniser is a
 * function from the page text to the tuples it matched, in order, and
 * `Sound` states the field shapes that the patterns guarantee.
 */
module Extraction {
  import opened Wrappers
  import opened Seqs
  import opened Digits
  import opened Dates
  import opened Amounts
  import opened Descriptions
  import opened Records

  /**
   * One matched tuple. `FullMatch` is the primary layout (reference code,
   * 8-digit date code, operation date, registration date, description,
   * amount); `ReducedMatch` the reduced one, without the two codes.
   */
  datatype RawMatch =
    | FullMatch(code: string, dateCode: string, operationDate: string,
                registrationDate: string, description: string, amountText: string)
    | ReducedMatch(operationDate: string, registrationDate: string,
                   description: string, amountText: string)

  /** The matchers of the primary and of the reduced layout. */
  datatype Recognisers = Recognisers(primary: string -> seq<RawMatch>, reduced: string -> seq<RawMatch>)

  /** `\d{20,}` */
  predicate IsReferenceCode(s: string) {
    |s| >= 20 && AllDigits(s)
  }

  /** `\d{8}` */
  predicate IsDateCode(s: string) {
    |s| == 8 && AllDigits(s)
  }

  /** `.+?`: at least one character, none of them a line break. */
  predicate IsDescriptionText(s: string) {
    s != [] && '\n' !in s
  }

  /** The field shapes a layout's pattern guarantees for the tuples it yields. */
  predicate WellShaped(c: RawMatch) {
    && (c.FullMatch? ==> IsReferenceCode(c.code) && IsDateCode(c.dateCode))
    && IsDateText(c.operationDate)
    && IsDateText(c.registrationDate)
    && IsDescriptionText(c.description)
    && IsAmountText(c.amountText)
  }

  predicate IsPrimaryTuple(c: RawMatch) {
    c.FullMatch? && WellShaped(c)
  }

  predicate IsReducedTuple(c: RawMatch) {
    c.ReducedMatch? && WellShaped(c)
  }

  /** The primary matcher yields well-shaped full tuples, the reduced one well-shaped reduced tuples. */
  ghost predicate Sound(r: Recognisers) {
    && (forall text, c | c in r.primary(text) :: IsPrimaryTuple(c))
    && (forall text, c | c in r.reduced(text) :: IsReducedTuple(c))
  }

  /**
   * Normalises one tuple: the amount is read in cents, the description
   * cleaned, the registration date parsed and formatted back. The tuple is
   * dropped (None) exactly when the amount or the registration date does not
   * parse. The reduced layout has no reference code and gets "".
   */
  function Normalize(c: RawMatch): (r: Option<Movement>)
    ensures r.Some? <==> ParseAmount(c.amountText).Some? && ParseDate(c.registrationDate).Some?
    ensures r.Some? ==>
      && Some(r.value.date) == ParseDate(c.registrationDate)
      && DateText(r.value) == c.registrationDate
      && IsClean(r.value.description)
      && ParseAmount(c.amountText) == Some(r.value.amount)
      && r.value.operationDate == c.operationDate
      && r.value.referenceCode == (if c.FullMatch? then c.code else "")
  {
    match (ParseAmount(c.amountText), ParseDate(c.registrationDate))
    case (Some(cents), Some(d)) =>
      FormatParse(c.registrationDate);
      var code := if c.FullMatch? then c.code else "";
      Some(Movement(d, c.operationDate, CleanDescription(c.description), cents, code))
    case _ => None
  }

  /** The record's description has exactly the words of the matched description, in order. */
  lemma NormalizedDescription(c: RawMatch)
    ensures Normalize(c).Some? ==> Words(Normalize(c).value.description) == Words(c.description)
  {
  }

  /** A well-shaped tuple is dropped exactly when its registration date is not a calendar date. */
  lemma DroppedIffDateInvalid(c: RawMatch)
    requires WellShaped(c)
    ensures Normalize(c).None? <==> ParseDate(c.registrationDate).None?
  {
  }

  /** The records of the tuples that normalise, in the order of the tuples. */
  function NormalizeAll(cs: seq<RawMatch>): (ms: seq<Movement>)
    ensures |ms| <= |cs|
  {
    FilterMap(Normalize, cs)
  }

  /** Every record comes from one of the tuples. */
  lemma NormalizedFromTuples(cs: seq<RawMatch>)
    ensures forall m <- NormalizeAll(cs) :: exists c <- cs :: Normalize(c) == Some(m)
  {
    FilterMapProvenance(Normalize, cs);
  }

  /**
   * A tuple whose registration date does not parse contributes nothing and
   * the tuples around it are still processed.
   */
  lemma InvalidDateDropped(a: seq<RawMatch>, c: RawMatch, b: seq<RawMatch>)
    requires ParseDate(c.registrationDate).None?
    ensures NormalizeAll(a + [c] + b) == NormalizeAll(a) + NormalizeAll(b)
  {
    FilterMapSkipsFailure(Normalize, a, c, b);
  }

  /**
   * The records of one page: those of the primary layout, unless the primary
   * layout produced no record at all, in which case those of the reduced layout.
   */
  function PageMovements(text: string, r: Recognisers): (ms: seq<Movement>)
    ensures |ms| <= |r.primary(text)| + |r.reduced(text)|
  {
    var primary := NormalizeAll(r.primary(text));
    if primary != [] then primary else NormalizeAll(r.reduced(text))
  }

  /** Parses one page's text, trying the reduced layout only when the primary one gave nothing. */
  method ParseMovementsFromText(text: string, r: Recognisers) returns (movements: seq<Movement>)
    ensures movements == PageMovements(text, r)
  {
    var matches := r.primary(text);
    movements := FilterMapLoop(Normalize, matches);
    if movements == [] {
      var simpleMatches := r.reduced(text);
      movements := FilterMapLoop(Normalize, simpleMatches);
    }
  }

  /**
   * With sound matchers, a page's records all carry a reference code of at
   * least 20 digits when the primary layout produced any record, and all
   * carry "" when the reduced layout was used instead.
   */
  lemma LayoutChoice(text: string, r: Recognisers)
    requires Sound(r)
    ensures NormalizeAll(r.primary(text)) != [] ==>
      PageMovements(text, r) == NormalizeAll(r.primary(text)) &&
      forall m <- PageMovements(text, r) :: IsReferenceCode(m.referenceCode)
    ensures NormalizeAll(r.primary(text)) == [] ==>
      PageMovements(text, r) == NormalizeAll(r.reduced(text)) &&
      forall m <- PageMovements(text, r) :: m.referenceCode == ""
  {
    var primary := r.primary(text);
    var reduced := r.reduced(text);
    if NormalizeAll(primary) != [] {
      NormalizedFromTuples(primary);
      forall m <- NormalizeAll(primary) ensures IsReferenceCode(m.referenceCode) {
        var c :| c in primary && Normalize(c) == Some(m);
        assert IsPrimaryTuple(c);
      }
    } else {
      NormalizedFromTuples(reduced);
      forall m <- NormalizeAll(reduced) ensures m.referenceCode == "" {
        var c :| c in reduced && Normalize(c) == Some(m);
        assert IsReducedTuple(c);
      }
    }
  }

  /** Every record extracted from a page has a clean description. */
  lemma PageRecordsWellFormed(text: string, r: Recognisers)
    ensures forall m <- PageMovements(text, r) :: IsClean(m.description)
  {
    var primary := r.primary(text);
    var reduced := r.reduced(text);
    var cs := if NormalizeAll(primary) != [] then primary else reduced;
    assert PageMovements(text, r) == NormalizeAll(cs);
    NormalizedFromTuples(cs);
    forall m <- NormalizeAll(cs) ensures IsClean(m.description) {
      var c :| c in cs && Normalize(c) == Some(m);
    }
  }

  /** The records of one page of a document; a page without text is skipped. */
  function PageOrSkip(text: string, r: Recognisers): (ms: seq<Movement>)
    ensures text == "" ==> ms == []
  {
    if text == "" then [] else PageMovements(text, r)
  }

  /** The records of a document: its pages' records in page order. */
  function DocumentMovements(pages: seq<string>, r: Recognisers): (ms: seq<Movement>)
  {
    ConcatMap((text: string) => PageOrSkip(text, r), pages)
  }

  /** The page loop: each page with text is parsed and its records appended. */
  method ExtractMovementsFromPages(pages: seq<string>, r: Recognisers) returns (movements: seq<Movement>)
    ensures movements == DocumentMovements(pages, r)
  {
    movements := [];
    for i := 0 to |pages|
      invariant movements == DocumentMovements(pages[..i], r)
    {
      assert pages[..i + 1][..i] == pages[..i];
      var text := pages[i];
      if text != "" {
        var pageMovements := ParseMovementsFromText(text, r);
        movements := movements + pageMovements;
      }
    }
    assert pages[..|pages|] == pages;
  }

  /** Extraction is page by page: the records of two runs of pages are concatenated, in order. */
  lemma DocumentMovementsAppend(p: seq<string>, q: seq<string>, r: Recognisers)
    ensures DocumentMovements(p + q, r) == DocumentMovements(p, r) + DocumentMovements(q, r)
  {
    ConcatMapAppend((text: string) => PageOrSkip(text, r), p, q);
  }

  /** A document none of whose pages has text yields no records. */
  lemma BlankPagesYieldNothing(pages: seq<string>, r: Recognisers)
    requires forall p <- pages :: p == ""
    ensures DocumentMovements(pages, r) == []
  {
    ConcatMapOfEmpties((text: string) => PageOrSkip(text, r), pages);
  }

  /** Every record of a document is a record of one of its pages with text. */
  lemma DocumentMovementsFromPages(pages: seq<string>, r: Recognisers)
    ensures forall m <- DocumentMovements(pages, r) ::
      exists text <- pages :: text != "" && m in PageMovements(text, r)
  {
    var f := (text: string) => PageOrSkip(text, r);
    ConcatMapProvenance(f, pages);
  }

  /** Every record extracted from a document has a clean description. */
  lemma DocumentRecordsWellFormed(pages: seq<string>, r: Recognisers)
    ensures forall m <- DocumentMovements(pages, r) :: IsClean(m.description)
  {
    var f := (text: string) => PageOrSkip(text, r);
    ConcatMapProvenance(f, pages);
    forall m <- DocumentMovements(pages, r) ensures IsClean(m.description) {
      var text :| text in pages && m in f(text);
      PageRecordsWellFormed(text, r);
    }
  }
}
