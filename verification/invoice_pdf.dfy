/** The vertical layout of the invoice PDF: the integer cursor `y` (in
    millimetres on an A4 page) that places the work-breakdown lines, starts new
    pages, places the closing block and numbers the pages. Text, fonts and the
    wrapping itself are not modelled: each entry's description arrives as the
    number of lines `splitTextToSize` wrapped it into. */
module InvoicePdf {

  import opened Text

  const PageHeight: int := 297
  const BottomBuffer: int := 40
  /** A breakdown line is drawn only at `y <= pageHeight - bottomBuffer`. */
  const LineLimit: int := PageHeight - BottomBuffer
  /** The closing block starts at `y <= pageHeight - 60`. */
  const ClosingLimit: int := PageHeight - 60
  const LineStep: int := 6
  /** A continuation page puts its heading at 20 and its first line 8 below. */
  const ContinuedTop: int := 20
  const ContinuedFirstLine: int := ContinuedTop + 8

  /** Where the header blocks leave the cursor for the breakdown heading:
      10 + 40 + 36 + 6 + 6 + 20 + 8 + 18 in the regeneration dialog, and
      20 + 40 + 36 + 6 + 6 + 20 + 8 + 18 in the invoice form. */
  const RegeneratedHeadingY: int := 144
  const FormHeadingY: int := 154

  /** The closing block draws the thanks at its start, the GST note 8 below,
      the payment heading 18 further, then the account name, trading name
      and bank details 6 apart; it leaves the cursor 24 below the account
      name. */
  const ClosingDepth: int := 8 + 18 + 6 + 12
  const ClosingEnd: int := 8 + 18 + 6 + 24
  /** The acknowledgement's wrapped lines go at a fixed `260 + 5i` in the
      regeneration dialog and `270 + 5i` in the form, whatever the cursor. */
  const RegeneratedAckY: int := 260
  const FormAckY: int := 270
  const AckStep: int := 5
  /** Page footers are drawn at `pageHeight - 10`. */
  const FooterY: int := PageHeight - 10

  /** One wrapped line of one entry: entry index and line index within it. */
  datatype Slot = Slot(entry: nat, part: nat)

  /** A drawn breakdown line; `hoursLabel` is whether the `N hrs` label is
      drawn beside it. */
  datatype Line = Line(page: nat, y: int, slot: Slot, hoursLabel: bool)

  /** The wrapped lines of entry `e`, which has `k` of them. */
  function EntrySlots(e: nat, k: nat): (r: seq<Slot>)
    ensures |r| == k
    ensures forall i :: 0 <= i < k ==> r[i] == Slot(e, i)
  {
    seq(k, i requires 0 <= i < k => Slot(e, i))
  }

  /** Every wrapped line of every entry, entry by entry, in order. */
  function Slots(wraps: seq<nat>): seq<Slot>
  {
    if |wraps| == 0 then [] else Slots(wraps[..|wraps| - 1]) + EntrySlots(|wraps| - 1, wraps[|wraps| - 1])
  }

  /** Each line of each entry appears in `Slots` exactly where the lines
      before it end: all of them, once each. */
  lemma {:induction false} SlotsCover(wraps: seq<nat>, s: Slot)
    ensures s in Slots(wraps) <==> s.entry < |wraps| && s.part < wraps[s.entry]
    ensures forall i, j :: 0 <= i < j < |Slots(wraps)| ==> Slots(wraps)[i] != Slots(wraps)[j]
  {
    if |wraps| > 0 {
      var n := |wraps| - 1;
      SlotsCover(wraps[..n], s);
      var a, b := Slots(wraps[..n]), EntrySlots(n, wraps[n]);
      assert Slots(wraps) == a + b;
      assert forall t :: t in a ==> t.entry < n by {
        forall t | t in a ensures t.entry < n {
          SlotsCover(wraps[..n], t);
        }
      }
    }
  }

  /** An entry list's first entries have no more lines than the whole. */
  lemma {:induction false} SlotsPrefix(wraps: seq<nat>, e: nat)
    requires e <= |wraps|
    ensures |Slots(wraps[..e])| <= |Slots(wraps)|
  {
    if e < |wraps| {
      var n := |wraps| - 1;
      assert wraps[..n][..e] == wraps[..e];
      SlotsPrefix(wraps[..n], e);
    } else {
      assert wraps[..e] == wraps;
    }
  }

  /** The layout facts the breakdown loop keeps: every line is above the
      limit and on an existing page, the hours label goes on first lines only,
      pages never go back, lines on one page go down it, and the cursor is
      below every line of the current page. */
  predicate Laid(lines: seq<Line>, page: nat, y: int)
  {
    page >= 1
    && (page > 1 ==> y >= ContinuedFirstLine)
    && (forall i :: 0 <= i < |lines| ==> lines[i].y <= LineLimit && 1 <= lines[i].page <= page)
    && (forall i :: 0 <= i < |lines| ==> (lines[i].hoursLabel <==> lines[i].slot.part == 0))
    && (forall i :: 0 <= i < |lines| && lines[i].page > 1 ==> lines[i].y >= ContinuedFirstLine)
    && (forall i :: 0 <= i < |lines| && lines[i].page == page ==> lines[i].y < y)
    && (forall i, j :: 0 <= i < j < |lines| ==>
         lines[i].page <= lines[j].page && (lines[i].page == lines[j].page ==> lines[i].y < lines[j].y))
  }

  /** Draws one line at the cursor, first starting a new page when the cursor
      is past the limit. */
  method DrawLine(lines: seq<Line>, page: nat, y: int, slot: Slot) returns (lines': seq<Line>, page': nat, y': int)
    requires Laid(lines, page, y)
    ensures Laid(lines', page', y')
    ensures |lines'| == |lines| + 1 && lines'[..|lines|] == lines && lines'[|lines|].slot == slot
    ensures page' == page + 1 <==> y > LineLimit
    ensures page' == page ==> y' == y + LineStep
    ensures page' == page || page' == page + 1
  {
    page', y' := page, y;
    if y' > LineLimit {
      page' := page' + 1;
      y' := ContinuedFirstLine;
    }
    lines' := lines + [Line(page', y', slot, slot.part == 0)];
    y' := y' + LineStep;
  }

  /** The breakdown loop: for each entry, each of its wrapped lines, starting
      on page 1 with the cursor at `firstY`. */
  method Breakdown(firstY: int, wraps: seq<nat>) returns (lines: seq<Line>, page: nat, y: int)
    ensures |lines| == |Slots(wraps)|
    ensures forall i :: 0 <= i < |lines| ==> lines[i].slot == Slots(wraps)[i]
    ensures Laid(lines, page, y)
    ensures page == 1 ==> y >= firstY
    ensures Fits(firstY, |Slots(wraps)|) ==> page == 1 && y == firstY + LineStep * |Slots(wraps)|
  {
    lines, page, y := [], 1, firstY;
    var e := 0;
    while e < |wraps|
      invariant 0 <= e <= |wraps|
      invariant |lines| == |Slots(wraps[..e])|
      invariant forall i :: 0 <= i < |lines| ==> lines[i].slot == Slots(wraps[..e])[i]
      invariant Laid(lines, page, y)
      invariant page == 1 ==> y >= firstY
      invariant Fits(firstY, |Slots(wraps)|) ==> page == 1 && y == firstY + LineStep * |lines|
    {
      var before := Slots(wraps[..e]);
      assert wraps[..e + 1][..e] == wraps[..e];
      assert Slots(wraps[..e + 1]) == before + EntrySlots(e, wraps[e]);
      SlotsPrefix(wraps, e + 1);
      var part := 0;
      while part < wraps[e]
        invariant 0 <= part <= wraps[e]
        invariant |lines| == |before| + part
        invariant forall i :: 0 <= i < |lines| ==> lines[i].slot == (before + EntrySlots(e, part))[i]
        invariant Laid(lines, page, y)
        invariant page == 1 ==> y >= firstY
        invariant Fits(firstY, |Slots(wraps)|) ==> page == 1 && y == firstY + LineStep * |lines|
      {
        lines, page, y := DrawLine(lines, page, y, Slot(e, part));
        part := part + 1;
      }
      e := e + 1;
    }
    assert wraps[..|wraps|] == wraps;
  }

  /** `count` lines drawn from `firstY` stay on the first page: the last one
      is drawn at or above the limit. */
  predicate Fits(firstY: int, count: nat)
  {
    firstY + LineStep * (count - 1) <= LineLimit
  }

  /** The closing block (thanks, GST note, payment details) starts a new page
      when the cursor is past `pageHeight - 60`. */
  function ClosingStart(page: nat, y: int): (r: (nat, int))
    ensures r.1 <= ClosingLimit
    ensures r.0 == page || r.0 == page + 1
    ensures y <= ClosingLimit ==> r == (page, y)
  {
    if y > ClosingLimit then (page + 1, ContinuedTop) else (page, y)
  }

  /** `Page i of N`. */
  function FooterText(i: nat, n: nat): string
  {
    "Page " + NatToString(i) + " of " + NatToString(n)
  }

  /** The footer loop: page `i` in 1..N gets `Page i of N`. */
  method PageFooters(pageCount: nat) returns (footers: seq<(nat, string)>)
    ensures |footers| == pageCount
    ensures forall i :: 0 <= i < pageCount ==> footers[i] == (i + 1, FooterText(i + 1, pageCount))
  {
    footers := [];
    var i := 1;
    while i <= pageCount
      invariant 1 <= i <= pageCount + 1
      invariant |footers| == i - 1
      invariant forall j :: 0 <= j < i - 1 ==> footers[j] == (j + 1, FooterText(j + 1, pageCount))
    {
      footers := footers + [(i, FooterText(i, pageCount))];
      i := i + 1;
    }
  }

  /** The page layout of a whole document. */
  datatype Layout = Layout(lines: seq<Line>, closingPage: nat, closingY: int, pageCount: nat, footers: seq<(nat, string)>)

  /** `generatePDFBlob` of the regeneration dialog: the breakdown (when
      details are asked for and there are entries) from just under its
      heading, six more millimetres, the closing block, and the footers. */
  method RegeneratedLayout(includeDetails: bool, wraps: seq<nat>) returns (doc: Layout)
    ensures includeDetails && |wraps| > 0 ==> (|doc.lines| == |Slots(wraps)|
      && forall i :: 0 <= i < |doc.lines| ==> doc.lines[i].slot == Slots(wraps)[i])
    ensures !(includeDetails && |wraps| > 0) ==> doc.lines == [] && doc.pageCount == 1
    ensures forall i :: 0 <= i < |doc.lines| ==> doc.lines[i].y <= LineLimit
    ensures forall i :: 0 <= i < |doc.lines| ==> (doc.lines[i].hoursLabel <==> doc.lines[i].slot.part == 0)
    ensures forall i :: 0 <= i < |doc.lines| ==> 1 <= doc.lines[i].page <= doc.closingPage
    ensures doc.closingY <= ClosingLimit && doc.pageCount == doc.closingPage >= 1
    ensures |doc.footers| == doc.pageCount
    ensures forall i :: 0 <= i < doc.pageCount ==> doc.footers[i] == (i + 1, FooterText(i + 1, doc.pageCount))
    ensures !(includeDetails && |wraps| > 0) ==> doc.closingPage == 1 && doc.closingY == RegeneratedHeadingY
    ensures includeDetails && |wraps| > 0 && Fits(RegeneratedHeadingY + LineStep, |Slots(wraps)|) ==>
      doc.closingPage == RegeneratedClosing(|Slots(wraps)|).0 && doc.closingY == RegeneratedClosing(|Slots(wraps)|).1
  {
    var lines: seq<Line> := [];
    var page: nat, y := 1, RegeneratedHeadingY;
    if includeDetails && |wraps| > 0 {
      lines, page, y := Breakdown(RegeneratedHeadingY + LineStep, wraps);
      y := y + LineStep;
    }
    var (closingPage, closingY) := ClosingStart(page, y);
    var footers := PageFooters(closingPage);
    doc := Layout(lines, closingPage, closingY, closingPage, footers);
  }

  /** Page and start of the regeneration dialog's closing block after a
      breakdown of `n` lines that all fit on the first page: the lines end at
      `150 + 6n`, six more millimetres follow, then the page check. */
  function RegeneratedClosing(n: nat): (nat, int)
  {
    ClosingStart(1, RegeneratedHeadingY + LineStep + LineStep * n + LineStep)
  }

  /** The regeneration dialog checks only that the closing block starts at
      or above `pageHeight - 60`, which keeps its bank-details line on the
      page but not clear of the acknowledgement fixed at 260: among the
      breakdowns that fit on the first page, those of 10 to 13 lines put the
      bank details on or below the acknowledgement's first line. A block
      starting right at the limit reaches 281. */
  lemma FixedAcknowledgementOverlaps(n: nat)
    requires Fits(RegeneratedHeadingY + LineStep, n)
    ensures RegeneratedClosing(n).0 == 1 ==> BankLineY(RegeneratedClosing(n).1) < PageHeight
    ensures RegeneratedClosing(n).0 == 1 && BankLineY(RegeneratedClosing(n).1) >= RegeneratedAckY <==> 10 <= n <= 13
    ensures BankLineY(RegeneratedClosing(10).1) == RegeneratedAckY
    ensures BankLineY(ClosingStart(1, ClosingLimit).1) == 281
  {
  }

  /** The bank-details line of a closing block that starts at `c`. */
  function BankLineY(c: int): int
  {
    c + ClosingDepth
  }

  /** The invoice form draws its breakdown without this pagination: line `k`
      goes at `154 + 6 + 6k` whatever the page holds. */
  function UnpaginatedLineY(k: nat): int
  {
    FormHeadingY + LineStep + LineStep * k
  }

  /** Where the invoice form starts its closing block, with no page check:
      right at the breakdown heading when no breakdown is drawn, else six
      below the last of its `n` one-line entries. */
  function FormClosingY(n: nat): int
  {
    if n == 0 then FormHeadingY else UnpaginatedLineY(n) + LineStep
  }

  /** The unpaginated form draws below the bottom edge of the 297 mm page:
      the bank details from the 15th entry on, a breakdown line from the
      24th. */
  lemma UnpaginatedOverflows(entryCount: nat)
    ensures BankLineY(FormClosingY(entryCount)) > PageHeight <==> entryCount >= 15
    ensures BankLineY(FormClosingY(15)) == 300
    ensures (exists k :: 0 <= k < entryCount && UnpaginatedLineY(k) > PageHeight) <==> entryCount >= 24
    ensures UnpaginatedLineY(23) == 298
  {
    if entryCount >= 24 {
      assert UnpaginatedLineY(23) > PageHeight;
    }
  }

  /** In the form the acknowledgement, fixed at 270, is reached by the bank
      details from the 10th entry on. */
  lemma FormAcknowledgementOverlaps(n: nat)
    ensures BankLineY(FormClosingY(n)) >= FormAckY <==> n >= 10
    ensures BankLineY(FormClosingY(10)) == FormAckY
  {
  }

  /** The acknowledgement of `lineCount` lines placed after the closing block
      that starts at `closingY` on `page`: at `ackY` when the block ends
      above it, else right under the block, and on a new page at `ackY` when
      it would reach the footer there. */
  function AcknowledgementStart(page: nat, closingY: int, ackY: int, lineCount: nat): (r: (nat, int))
    ensures r.0 == page ==> r.1 > BankLineY(closingY) && r.1 + AckStep * (lineCount - 1) < FooterY
    ensures r.0 == page || r == (page + 1, ackY)
    ensures r.1 >= ackY
    ensures ackY + AckStep * (lineCount - 1) < FooterY ==> r.1 + AckStep * (lineCount - 1) < FooterY
    ensures closingY + ClosingEnd <= ackY && ackY + AckStep * (lineCount - 1) < FooterY ==> r == (page, ackY)
  {
    var start := if closingY + ClosingEnd <= ackY then ackY else closingY + ClosingEnd;
    if start + AckStep * (lineCount - 1) < FooterY then (page, start) else (page + 1, ackY)
  }

  function Ones(n: nat): (r: seq<nat>)
    ensures |r| == n && forall i :: 0 <= i < n ==> r[i] == 1
  {
    seq(n, i => 1)
  }

  /** The form's breakdown with the regeneration dialog's pagination and
      page check: one line per entry from just under the heading at 154, then
      the closing block. Every line lands above the limit, one per entry, in
      entry order, the bank details stay on the page, and where the form's
      layout had room the closing block starts where the form starts it. */
  method PaginatedFormBreakdown(entryCount: nat) returns (lines: seq<Line>, closingPage: nat, closingY: int)
    ensures |lines| == entryCount
    ensures forall i :: 0 <= i < entryCount ==> lines[i].slot == Slot(i, 0) && lines[i].hoursLabel
    ensures forall i :: 0 <= i < entryCount ==> lines[i].y <= LineLimit < PageHeight
    ensures forall i :: 0 <= i < entryCount ==> 1 <= lines[i].page <= closingPage
    ensures BankLineY(closingY) < PageHeight
    ensures FormClosingY(entryCount) <= ClosingLimit ==> closingPage == 1 && closingY == FormClosingY(entryCount)
  {
    var wraps := Ones(entryCount);
    OneLineEach(entryCount);
    if entryCount == 0 {
      lines, closingPage, closingY := [], 1, FormHeadingY;
    } else {
      var page, y;
      lines, page, y := Breakdown(FormHeadingY + LineStep, wraps);
      closingPage, closingY := ClosingStart(page, y + LineStep).0, ClosingStart(page, y + LineStep).1;
    }
  }

  /** With one wrapped line per entry, line `i` belongs to entry `i`. */
  lemma {:induction false} OneLineEach(n: nat)
    ensures |Slots(Ones(n))| == n
    ensures forall i :: 0 <= i < n ==> Slots(Ones(n))[i] == Slot(i, 0)
  {
    if n > 0 {
      OneLineEach(n - 1);
      assert Ones(n)[..n - 1] == Ones(n - 1);
    }
  }
}
