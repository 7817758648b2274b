/**
 The page loop of `extract_text_from_pdf` in main.py. The PDF parser is
 foreign code: the document is given as the sequence of the texts its pages
 yield, in page order.
 */
module Extraction {

  /** The page texts joined in page order with no separator. */
  function Concat(pages: seq<string>): string {
    if pages == [] then "" else pages[0] + Concat(pages[1..])
  }

  lemma {:induction false} ConcatAppend(a: seq<string>, b: seq<string>)
    ensures Concat(a + b) == Concat(a) + Concat(b)
  {
    if a == [] {
      assert a + b == b;
    } else {
      assert (a + b)[0] == a[0];
      assert (a + b)[1..] == a[1..] + b;
      ConcatAppend(a[1..], b);
    }
  }

  /** `extract_text_from_pdf`: `text += page_text` for every page, in
      order, starting from the empty string. */
  method ExtractText(pages: seq<string>) returns (text: string)
    ensures text == Concat(pages)
  {
    text := "";
    for i := 0 to |pages|
      invariant text == Concat(pages[..i])
    {
      ConcatAppend(pages[..i], [pages[i]]);
      assert pages[..i + 1] == pages[..i] + [pages[i]];
      text := text + pages[i];
    }
    assert pages[..|pages|] == pages;
  }

  /** Page `i` appears whole, right after the text of the pages before it
      and right before the text of the pages after it. */
  lemma {:induction false} ConcatSplitsAtPage(pages: seq<string>, i: nat)
    requires i < |pages|
    ensures Concat(pages) == Concat(pages[..i]) + pages[i] + Concat(pages[i + 1..])
  {
    if i == 0 {
      assert pages[..0] == [];
    } else {
      var tail := pages[1..];
      ConcatSplitsAtPage(tail, i - 1);
      assert tail[..i - 1] == pages[..i][1..];
      assert tail[i - 1] == pages[i];
      assert tail[i..] == pages[i + 1..];
    }
  }

  /** No character is added or lost: the length is the sum of the page
      lengths. */
  lemma {:induction false} ConcatLength(pages: seq<string>)
    ensures |Concat(pages)| == TotalLength(pages)
  {
    if pages != [] { ConcatLength(pages[1..]); }
  }

  function TotalLength(pages: seq<string>): nat {
    if pages == [] then 0 else |pages[0]| + TotalLength(pages[1..])
  }
}
