/** The report writer of pdfGen/GeneratePDF.py. The PDF is the sequence of
    blocks written to it, each a title or a paragraph with its FPDF style
    string; fonts, cells, page header and footer are layout and are not
    modelled. Python's `f"{value}"` for a JSON value is the parameter `show`. */
module GeneratePdf {
  import opened Common
  import opened JsonValues
  import opened OrderFunction

  const ReportTitle := "Client Sentiment Analysis"
  const OutputFolder := "storedPDF/"

  datatype Block = Title(text: string) | Paragraph(text: string, style: string)

  /** pdfGen/GeneratePDF.py:24-29: "B" for bold, then "U" for underline. */
  function Style(bold: bool, underline: bool): (r: string)
    ensures r in {"", "B", "U", "BU"}
    ensures 'B' in r <==> bold
    ensures 'U' in r <==> underline
  {
    if bold && underline then "BU"
    else if bold then "B"
    else if underline then "U"
    else ""
  }

  /** Python's `str.capitalize` on ASCII letters: the first character upper-cased, the
      rest lower-cased. */
  function Capitalize(s: string): (r: string)
    ensures |r| == |s|
    ensures s != [] ==> r[0] == UpperChar(s[0])
    ensures forall i :: 1 <= i < |r| ==> r[i] == LowerChar(s[i]) && !IsUpper(r[i])
  {
    seq(|s|, i requires 0 <= i < |s| => if i == 0 then UpperChar(s[0]) else LowerChar(s[i]))
  }

  function Heading(key: string): string
  {
    Capitalize(key) + ":"
  }

  class PdfReport {
    var blocks: seq<Block>

    constructor ()
      ensures blocks == []
    {
      blocks := [];
    }

    /** pdfGen/GeneratePDF.py:18-21. */
    method AddTitle(title: string)
      modifies this
      ensures blocks == old(blocks) + [Title(title)]
    {
      blocks := blocks + [Title(title)];
    }

    /** pdfGen/GeneratePDF.py:23-32. */
    method AddParagraph(text: string, bold: bool, underline: bool)
      modifies this
      ensures blocks == old(blocks) + [Paragraph(text, Style(bold, underline))]
    {
      var style := "";
      if bold {
        style := style + "B";
      }
      if underline {
        style := style + "U";
      }
      assert style == Style(bold, underline) by {
        if bold && underline {
          assert style == "B" + "U" == "BU";
        } else if bold {
          assert style == "" + "B" == "B";
        } else if underline {
          assert style == "" + "U" == "U";
        }
      }
      blocks := blocks + [Paragraph(text, style)];
    }
  }

  // ---------------------------------------------------------------------
  // The flattened report (pdfGen/GeneratePDF.py:80-87)
  // ---------------------------------------------------------------------

  /** The blocks written for a whole dict, key by key in dict order. */
  function Flatten(obj: Json, show: Json -> string): seq<Block>
    requires obj.JObject?
    decreases obj, 1, 0
  {
    FlattenPrefix(obj, |obj.fields|, show)
  }

  /** The blocks written for the first `n` members. */
  function FlattenPrefix(obj: Json, n: nat, show: Json -> string): seq<Block>
    requires obj.JObject? && n <= |obj.fields|
    decreases obj, 0, n
  {
    if n == 0 then [] else FlattenPrefix(obj, n - 1, show) + EntryBlocks(obj, n - 1, show)
  }

  /** A dict value gives a bold underlined heading followed by its own blocks; any
      other value gives a bold heading and a plain paragraph of the value. */
  function EntryBlocks(obj: Json, i: nat, show: Json -> string): seq<Block>
    requires obj.JObject? && i < |obj.fields|
    decreases obj, 0, i
  {
    var (key, value) := obj.fields[i];
    assert obj.fields[i] in obj.fields;
    if value.JObject? then [Paragraph(Heading(key), Style(true, true))] + Flatten(value, show)
    else [Paragraph(Heading(key), Style(true, false)), Paragraph(show(value), Style(false, false))]
  }

  /** pdfGen/GeneratePDF.py:80-87: walk the dict, recursing into dict values. */
  method InsertIntoPdf(values: Json, pdf: PdfReport, show: Json -> string)
    requires values.JObject?
    modifies pdf
    ensures pdf.blocks == old(pdf.blocks) + Flatten(values, show)
    decreases values, 1
  {
    var i := 0;
    while i < |values.fields|
      invariant 0 <= i <= |values.fields|
      invariant pdf.blocks == old(pdf.blocks) + FlattenPrefix(values, i, show)
    {
      InsertEntry(values, i, pdf, show);
      PrefixExtend(old(pdf.blocks), values, i, show);
      i := i + 1;
    }
  }

  /** The body of the loop for member `i`: a heading, then either the nested dict's
      blocks or the value itself. */
  method InsertEntry(values: Json, i: nat, pdf: PdfReport, show: Json -> string)
    requires values.JObject? && i < |values.fields|
    modifies pdf
    ensures pdf.blocks == old(pdf.blocks) + EntryBlocks(values, i, show)
    decreases values, 0
  {
    var (key, value) := values.fields[i];
    assert values.fields[i] in values.fields;
    if value.JObject? {
      pdf.AddParagraph(Heading(key), true, true);
      InsertIntoPdf(value, pdf, show);
      EntryBlocksDict(values, i, show);
      AppendAssoc(old(pdf.blocks), [Paragraph(Heading(key), "BU")], Flatten(value, show));
    } else {
      pdf.AddParagraph(Heading(key), true, false);
      pdf.AddParagraph(show(value), false, false);
      EntryBlocksLeaf(values, i, show);
    }
  }

  lemma AppendAssoc(a: seq<Block>, b: seq<Block>, c: seq<Block>)
    ensures a + b + c == a + (b + c)
  {
  }

  lemma PrefixExtend(before: seq<Block>, obj: Json, n: nat, show: Json -> string)
    requires obj.JObject? && n < |obj.fields|
    ensures before + FlattenPrefix(obj, n, show) + EntryBlocks(obj, n, show) == before + FlattenPrefix(obj, n + 1, show)
  {
    FlattenPrefixStep(obj, n, show);
    AppendAssoc(before, FlattenPrefix(obj, n, show), EntryBlocks(obj, n, show));
  }

  lemma FlattenPrefixStep(obj: Json, n: nat, show: Json -> string)
    requires obj.JObject? && n < |obj.fields|
    ensures FlattenPrefix(obj, n + 1, show) == FlattenPrefix(obj, n, show) + EntryBlocks(obj, n, show)
  {
  }

  lemma EntryBlocksDict(obj: Json, i: nat, show: Json -> string)
    requires obj.JObject? && i < |obj.fields| && obj.fields[i].1.JObject?
    ensures EntryBlocks(obj, i, show) == [Paragraph(Heading(obj.fields[i].0), "BU")] + Flatten(obj.fields[i].1, show)
  {
  }

  lemma EntryBlocksLeaf(obj: Json, i: nat, show: Json -> string)
    requires obj.JObject? && i < |obj.fields| && !obj.fields[i].1.JObject?
    ensures EntryBlocks(obj, i, show)
      == [Paragraph(Heading(obj.fields[i].0), "B"), Paragraph(show(obj.fields[i].1), "")]
  {
  }

  // ---------------------------------------------------------------------
  // Counting the paragraphs
  // ---------------------------------------------------------------------

  /** The number of dict values nested anywhere inside `obj`. */
  function Dicts(obj: Json): nat
    requires obj.JObject?
    decreases obj, 1, 0
  {
    DictsPrefix(obj, |obj.fields|)
  }

  function DictsPrefix(obj: Json, n: nat): nat
    requires obj.JObject? && n <= |obj.fields|
    decreases obj, 0, n
  {
    if n == 0 then 0
    else
      var value := obj.fields[n - 1].1;
      assert obj.fields[n - 1] in obj.fields;
      DictsPrefix(obj, n - 1) + (if value.JObject? then 1 + Dicts(value) else 0)
  }

  /** The number of non-dict values anywhere inside `obj`. */
  function Leaves(obj: Json): nat
    requires obj.JObject?
    decreases obj, 1, 0
  {
    LeavesPrefix(obj, |obj.fields|)
  }

  function LeavesPrefix(obj: Json, n: nat): nat
    requires obj.JObject? && n <= |obj.fields|
    decreases obj, 0, n
  {
    if n == 0 then 0
    else
      var value := obj.fields[n - 1].1;
      assert obj.fields[n - 1] in obj.fields;
      LeavesPrefix(obj, n - 1) + (if value.JObject? then Leaves(value) else 1)
  }

  /** One paragraph per nested dict and two per leaf. */
  lemma {:induction false} FlattenCount(obj: Json, show: Json -> string)
    requires obj.JObject?
    ensures |Flatten(obj, show)| == Dicts(obj) + 2 * Leaves(obj)
    decreases obj, 1, 0
  {
    FlattenPrefixCount(obj, |obj.fields|, show);
  }

  lemma {:induction false} FlattenPrefixCount(obj: Json, n: nat, show: Json -> string)
    requires obj.JObject? && n <= |obj.fields|
    ensures |FlattenPrefix(obj, n, show)| == DictsPrefix(obj, n) + 2 * LeavesPrefix(obj, n)
    decreases obj, 0, n
  {
    if n > 0 {
      FlattenPrefixCount(obj, n - 1, show);
      var value := obj.fields[n - 1].1;
      assert obj.fields[n - 1] in obj.fields;
      if value.JObject? {
        FlattenCount(value, show);
        EntryBlocksDict(obj, n - 1, show);
      } else {
        EntryBlocksLeaf(obj, n - 1, show);
      }
    }
  }

  /** The members of a dict whose values are all leaves, each as its bold heading
      and its plain value. */
  function LeafHeading(obj: Json, i: nat): Block
    requires obj.JObject?
  {
    if i < |obj.fields| then Paragraph(Heading(obj.fields[i].0), "B") else Paragraph("", "")
  }

  function LeafValue(obj: Json, i: nat, show: Json -> string): Block
    requires obj.JObject?
  {
    if i < |obj.fields| then Paragraph(show(obj.fields[i].1), "") else Paragraph("", "")
  }

  /** A dict without nested dicts gives, for each key in dict order, its bold
      heading followed by the plain text of its value. */
  lemma FlatDictLayout(obj: Json, n: nat, show: Json -> string)
    requires obj.JObject? && n <= |obj.fields|
    requires forall i :: 0 <= i < |obj.fields| ==> !obj.fields[i].1.JObject?
    ensures var r := FlattenPrefix(obj, n, show);
      && |r| == 2 * n
      && (forall i :: 0 <= i < n ==>
            r[2 * i] == Paragraph(Heading(obj.fields[i].0), "B")
            && r[2 * i + 1] == Paragraph(show(obj.fields[i].1), ""))
  {
    var first := (i: nat) => LeafHeading(obj, i);
    var second := (i: nat) => LeafValue(obj, i, show);
    FlattenLeafPairs(obj, n, show, first, second);
    PairsLayout(n, first, second);
    var r := FlattenPrefix(obj, n, show);
    forall i | 0 <= i < n
      ensures r[2 * i] == Paragraph(Heading(obj.fields[i].0), "B")
      ensures r[2 * i + 1] == Paragraph(show(obj.fields[i].1), "")
    {
      assert r[2 * i] == first(i) && r[2 * i + 1] == second(i);
    }
  }

  lemma {:induction false} FlattenLeafPairs(obj: Json, n: nat, show: Json -> string, first: nat -> Block, second: nat -> Block)
    requires obj.JObject? && n <= |obj.fields|
    requires forall i :: 0 <= i < |obj.fields| ==> !obj.fields[i].1.JObject?
    requires forall i :: first(i) == LeafHeading(obj, i)
    requires forall i :: second(i) == LeafValue(obj, i, show)
    ensures FlattenPrefix(obj, n, show) == Pairs(n, first, second)
    decreases n
  {
    if n > 0 {
      calc {
        FlattenPrefix(obj, n, show);
      == { FlattenPrefixStep(obj, n - 1, show); }
        FlattenPrefix(obj, n - 1, show) + EntryBlocks(obj, n - 1, show);
      == { FlattenLeafPairs(obj, n - 1, show, first, second);
           LeafEntry(obj, n - 1, show, first, second);
           AppendCongruence(FlattenPrefix(obj, n - 1, show), EntryBlocks(obj, n - 1, show),
             Pairs(n - 1, first, second), [first(n - 1), second(n - 1)]); }
        Pairs(n - 1, first, second) + [first(n - 1), second(n - 1)];
      == { PairsStep(n, first, second); }
        Pairs(n, first, second);
      }
    }
  }

  lemma AppendCongruence(a: seq<Block>, b: seq<Block>, c: seq<Block>, d: seq<Block>)
    requires a == c && b == d
    ensures a + b == c + d
  {
  }

  lemma LeafEntry(obj: Json, i: nat, show: Json -> string, first: nat -> Block, second: nat -> Block)
    requires obj.JObject? && i < |obj.fields| && !obj.fields[i].1.JObject?
    requires first(i) == LeafHeading(obj, i)
    requires second(i) == LeafValue(obj, i, show)
    ensures EntryBlocks(obj, i, show) == [first(i), second(i)]
  {
    EntryBlocksLeaf(obj, i, show);
  }

  /** The first `n` pairs `first(i), second(i)` one after the other. */
  function Pairs(n: nat, first: nat -> Block, second: nat -> Block): seq<Block>
  {
    if n == 0 then [] else Pairs(n - 1, first, second) + [first(n - 1), second(n - 1)]
  }

  lemma PairsStep(n: nat, first: nat -> Block, second: nat -> Block)
    requires n > 0
    ensures Pairs(n, first, second) == Pairs(n - 1, first, second) + [first(n - 1), second(n - 1)]
  {
  }

  lemma {:induction false} PairsLayout(n: nat, first: nat -> Block, second: nat -> Block)
    ensures var r := Pairs(n, first, second);
      && |r| == 2 * n
      && (forall i :: 0 <= i < n ==> r[2 * i] == first(i) && r[2 * i + 1] == second(i))
    decreases n
  {
    if n > 0 {
      PairsLayout(n - 1, first, second);
      var prev := Pairs(n - 1, first, second);
      var e := [first(n - 1), second(n - 1)];
      forall i | 0 <= i < n
        ensures Pairs(n, first, second)[2 * i] == first(i)
        ensures Pairs(n, first, second)[2 * i + 1] == second(i)
      {
        if i < n - 1 {
          AppendIndexLeft(prev, e, 2 * i);
          AppendIndexLeft(prev, e, 2 * i + 1);
        } else {
          AppendIndexRight(prev, e, 0);
          AppendIndexRight(prev, e, 1);
        }
      }
    }
  }

  lemma AppendIndexLeft(a: seq<Block>, b: seq<Block>, k: nat)
    requires k < |a|
    ensures (a + b)[k] == a[k]
  {
  }

  lemma AppendIndexRight(a: seq<Block>, b: seq<Block>, k: nat)
    requires k < |b|
    ensures (a + b)[|a| + k] == b[k]
  {
  }

  /** Every block of a flattened dict is a paragraph whose style is "BU" (a dict
      heading), "B" (a leaf heading) or "" (a value). */
  lemma {:induction false} FlattenStyles(obj: Json, show: Json -> string)
    requires obj.JObject?
    ensures forall b :: b in Flatten(obj, show) ==> b.Paragraph? && b.style in {"BU", "B", ""}
    decreases obj, 1, 0
  {
    FlattenPrefixStyles(obj, |obj.fields|, show);
  }

  lemma {:induction false} FlattenPrefixStyles(obj: Json, n: nat, show: Json -> string)
    requires obj.JObject? && n <= |obj.fields|
    ensures forall b :: b in FlattenPrefix(obj, n, show) ==> b.Paragraph? && b.style in {"BU", "B", ""}
    decreases obj, 0, n
  {
    if n > 0 {
      FlattenPrefixStyles(obj, n - 1, show);
      var value := obj.fields[n - 1].1;
      assert obj.fields[n - 1] in obj.fields;
      if value.JObject? {
        FlattenStyles(value, show);
      }
    }
  }

  // ---------------------------------------------------------------------
  // The report (pdfGen/GeneratePDF.py:51-72)
  // ---------------------------------------------------------------------

  /** pdfGen/GeneratePDF.py:51-72: a fresh report with the title, the id paragraph,
      then the flattened data; the id comes from the order book, and the file is
      named after it. */
  method CreatePdfReport(parsedData: Json, book: OrderBook, today: string, show: Json -> string)
    returns (pdf: PdfReport, fileName: string, outputPath: string)
    requires parsedData.JObject?
    modifies book
    ensures fresh(pdf)
    ensures book.stored == NextCounts(old(book.stored), today)
    ensures var id := OrderId(today, book.stored[today]);
      && pdf.blocks == [Title(ReportTitle), Paragraph("Report Id: " + id, "")] + Flatten(parsedData, show)
      && fileName == id + ".pdf"
      && outputPath == OutputFolder + fileName
  {
    pdf := new PdfReport();
    pdf.AddTitle(ReportTitle);
    var orderId := book.GenerateOrderId(today);
    var orderText := "Report Id: " + orderId;
    pdf.AddParagraph(orderText, false, false);
    InsertIntoPdf(parsedData, pdf, show);
    fileName := orderId + ".pdf";
    outputPath := OutputFolder + fileName;
  }

  /** The report's text starts with the title and the id paragraph, its file name
      ends in ".pdf" after the id, and the first report of a day is numbered 0001. */
  lemma ReportHeader(counts: map<string, nat>, today: string, parsedData: Json, show: Json -> string)
    requires parsedData.JObject?
    requires today !in counts
    ensures var id := OrderId(today, NextCounts(counts, today)[today]);
      var blocks := [Title(ReportTitle), Paragraph("Report Id: " + id, "")] + Flatten(parsedData, show);
      && blocks[1].text == "Report Id: " + today + "-0001"
      && EndsWith(id + ".pdf", ".pdf")
      && |blocks| == 2 + Dicts(parsedData) + 2 * Leaves(parsedData)
  {
    FirstIdOfDay(counts, today);
    FlattenCount(parsedData, show);
    var id := OrderId(today, NextCounts(counts, today)[today]);
    assert (id + ".pdf")[|id|..] == ".pdf";
  }
}
