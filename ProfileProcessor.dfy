/**
  * The text helpers of `ProfileProcessor` (backend/utils/profile_processor.py):
  * whitespace normalisation of extracted text, assembly of the prompt handed
  * to the language model, and the parts of the two extractors that do not
  * depend on PyPDF2 or on the network.
  */
module ProfileProcessor {

  import opened Common
  import opened Text

  // ---------------------------------------------------------------------
  // _clean_text
  // ---------------------------------------------------------------------

  /** `_clean_text`: Python's `" ".join(text.split())`. */
  function CleanText(text: string): string
  {
    JoinWith(Words(text), " ")
  }

  /** `t` has no leading or trailing whitespace, and every whitespace
      character in it is a single space between two non-whitespace
      characters. */
  predicate SingleSpaced(t: string)
  {
    (t == [] || (t[0] !in PyWhitespace && t[|t| - 1] !in PyWhitespace)) &&
    forall k :: 0 <= k < |t| && t[k] in PyWhitespace ==>
      t[k] == ' ' && 0 < k < |t| - 1 && t[k - 1] !in PyWhitespace && t[k + 1] !in PyWhitespace
  }

  /** Words joined by single spaces are single-spaced. */
  lemma {:induction false} JoinWordsSingleSpaced(ws: seq<string>)
    requires forall i :: 0 <= i < |ws| ==> IsWord(ws[i])
    ensures SingleSpaced(JoinWith(ws, " "))
  {
    if |ws| == 1 {
      assert IsWord(ws[0]);
    } else if |ws| > 1 {
      var w, r := ws[0], JoinWith(ws[1..], " ");
      JoinWordsSingleSpaced(ws[1..]);
      JoinWordsEnds(ws[1..]);
      JoinWordsEnds(ws);
      SpaceIsWhitespace();
      var j := JoinWith(ws, " ");
      assert IsWord(w);
      assert j == w + " " + r;
      assert forall m :: 0 <= m < |w| ==> j[m] == w[m];
      assert j[|w|] == ' ';
      assert forall m :: |w| < m < |j| ==> j[m] == r[m - |w| - 1];
    }
  }

  /** `_clean_text` leaves no leading or trailing whitespace and only single
      spaces between tokens. */
  lemma CleanTextSingleSpaced(text: string)
    ensures SingleSpaced(CleanText(text))
  {
    JoinWordsSingleSpaced(Words(text));
  }

  /** `_clean_text` keeps the tokens of its input, in order. */
  lemma CleanTextKeepsWords(text: string)
    ensures Words(CleanText(text)) == Words(text)
  {
    WordsOfJoin(Words(text));
  }

  /** `_clean_text` removes whitespace only: the non-whitespace characters
      of its output are those of its input, in order. */
  lemma CleanTextKeepsText(text: string)
    ensures NonWs(CleanText(text)) == NonWs(text)
  {
    WordsCover(CleanText(text));
    CleanTextKeepsWords(text);
    WordsCover(text);
  }

  /** `_clean_text` is idempotent. */
  lemma CleanTextIdempotent(text: string)
    ensures CleanText(CleanText(text)) == CleanText(text)
  {
    CleanTextKeepsWords(text);
  }

  /** What follows the first word and its space in a single-spaced text is
      single-spaced. */
  lemma SingleSpacedTail(t: string, n: nat)
    requires SingleSpaced(t) && n < |t| && t[n] in PyWhitespace
    ensures n + 1 < |t| && SingleSpaced(t[n + 1..])
  {
  }

  /** In a single-spaced text, the first word is followed by one space. */
  lemma SingleSpacedGap(t: string, n: nat)
    requires SingleSpaced(t) && n == WordLength(t) && n < |t|
    ensures n + 1 < |t| && t == t[..n] + " " + t[n + 1..]
  {
    // Dafny finds this unaided, but without these steps the search can exceed the resource limit.
    assert t[n] in PyWhitespace;
    assert t[n] == ' ' && n < |t| - 1;
    SplitAround(t, n);
    assert [t[n]] == " ";
  }

  /** `t` is the text before index `n`, the character at `n`, and the rest. */
  lemma SplitAround(t: string, n: nat)
    requires n < |t|
    ensures t == t[..n] + [t[n]] + t[n + 1..]
  {
  }

  /** A single-spaced text is left as it is by `_clean_text`. */
  lemma {:induction false} SingleSpacedIsClean(t: string)
    requires SingleSpaced(t)
    ensures CleanText(t) == t
    decreases |t|
  {
    if t != [] {
      var n := WordLength(t);
      assert t[0] !in PyWhitespace;
      if n == |t| {
        assert t[..n] == t;
        assert IsWord(t);
        WordsCons(t, []);
        assert t + [] == t;
      } else {
        var u := t[n + 1..];
        SingleSpacedTail(t, n);
        SingleSpacedIsClean(u);
        LeadingWord(t);
        SingleSpacedGap(t, n);
        var ws := Words(t);
        assert Words(u) != [] by {
          assert JoinWith(Words(u), " ") == u;
        }
        assert ws[1..] == Words(u);
        assert JoinWith(ws, " ") == t[..n] + " " + JoinWith(Words(u), " ");
      }
    }
  }

  /** The texts `_clean_text` leaves unchanged are exactly the single-spaced
      ones. */
  lemma CleanTextFixpoints(t: string)
    ensures CleanText(t) == t <==> SingleSpaced(t)
  {
    CleanTextSingleSpaced(t);
    if SingleSpaced(t) {
      SingleSpacedIsClean(t);
    }
  }

  // ---------------------------------------------------------------------
  // _create_summary_prompt
  // ---------------------------------------------------------------------

  /** Python truthiness of an `Optional[str]`: `None` and `""` are false;
      every other string, whitespace-only ones included, is true. */
  predicate Truthy(s: Option<string>)
  {
    s.Some? && s.value != ""
  }

  function PromptHeader(tone: string): string
  {
    "Create a " + tone + " summary of the following LinkedIn profile for networking purposes:\n\n"
  }

  const PromptFooter: string :=
    "\n\nProvide a concise summary that highlights key points and would be useful for personalized outreach."

  const ContextLabel: string := "\nContext for summary: "

  /** The `"key: value\n"` line written for one profile entry. */
  function EntryLine(entry: (string, string)): string
  {
    entry.0 + ": " + entry.1 + "\n"
  }

  /** The lines written for `entries`, in order (`dict.items()` order). */
  function EntryLines(entries: seq<(string, string)>): string
  {
    if entries == [] then ""
    else EntryLines(entries[..|entries| - 1]) + EntryLine(entries[|entries| - 1])
  }

  /** The context paragraph, present only for a truthy context. */
  function ContextSection(context: Option<string>): string
  {
    if Truthy(context) then ContextLabel + context.value else ""
  }

  /** The prompt `_create_summary_prompt` returns. */
  function SummaryPrompt(entries: seq<(string, string)>, tone: string, context: Option<string>): string
  {
    PromptHeader(tone) + EntryLines(entries) + ContextSection(context) + PromptFooter
  }

  /** `_create_summary_prompt`: appends one line per entry to the header,
      then the context paragraph when the context is truthy, then the footer. */
  method CreateSummaryPrompt(entries: seq<(string, string)>, tone: string, context: Option<string>)
    returns (prompt: string)
    ensures prompt == SummaryPrompt(entries, tone, context)
  {
    var header := PromptHeader(tone);
    prompt := header;
    var i := 0;
    while i < |entries|
      invariant 0 <= i <= |entries|
      invariant prompt == header + EntryLines(entries[..i])
    {
      EntryLinesSnoc(entries, i);
      prompt := prompt + EntryLine(entries[i]);
      i := i + 1;
    }
    assert entries[..i] == entries;
    ghost var body := prompt;
    if Truthy(context) {
      prompt := prompt + ContextLabel + context.value;
    }
    assert prompt == body + ContextSection(context);
    prompt := prompt + PromptFooter;
  }

  /** The lines of two runs of entries are the lines of each, one after the other. */
  lemma {:induction false} EntryLinesAppend(a: seq<(string, string)>, b: seq<(string, string)>)
    ensures EntryLines(a + b) == EntryLines(a) + EntryLines(b)
    decreases |b|
  {
    if b != [] {
      var b' := b[..|b| - 1];
      assert (a + b)[..|a + b| - 1] == a + b';
      EntryLinesAppend(a, b');
    } else {
      assert a + b == a;
    }
  }

  /** Taking one more entry adds its line at the end. */
  lemma EntryLinesSnoc(entries: seq<(string, string)>, i: nat)
    requires i < |entries|
    ensures EntryLines(entries[..i + 1]) == EntryLines(entries[..i]) + EntryLine(entries[i])
  {
    var upTo := entries[..i + 1];
    assert upTo[..|upTo| - 1] == entries[..i];
    assert upTo[|upTo| - 1] == entries[i];
  }

  /** The lines of all entries are those of the first `i`, then those of
      the rest. */
  lemma EntryLinesSplit(entries: seq<(string, string)>, i: nat)
    requires i <= |entries|
    ensures EntryLines(entries) == EntryLines(entries[..i]) + EntryLines(entries[i..])
  {
    assert entries == entries[..i] + entries[i..];
    EntryLinesAppend(entries[..i], entries[i..]);
  }

  /** Entry `i`'s line sits between the lines of the entries before it and
      those after it: one line per entry, in the entries' order. */
  lemma EntryLineInPlace(entries: seq<(string, string)>, i: nat)
    requires i < |entries|
    ensures EntryLines(entries) ==
      EntryLines(entries[..i]) + EntryLine(entries[i]) + EntryLines(entries[i + 1..])
  {
    EntryLinesSplit(entries, i + 1);
    EntryLinesSnoc(entries, i);
  }

  /** The prompt opens with the header for `tone` and closes with the fixed
      footer, whatever the entries and the context. */
  lemma PromptFraming(entries: seq<(string, string)>, tone: string, context: Option<string>)
    ensures |PromptHeader(tone)| + |PromptFooter| <= |SummaryPrompt(entries, tone, context)|
    ensures SummaryPrompt(entries, tone, context)[..|PromptHeader(tone)|] == PromptHeader(tone)
    ensures SummaryPrompt(entries, tone, context)[|SummaryPrompt(entries, tone, context)| - |PromptFooter|..] ==
      PromptFooter
  {
  }

  /** The context paragraph is empty exactly when the context is not truthy. */
  lemma ContextSectionEmpty(context: Option<string>)
    ensures ContextSection(context) == "" <==> !Truthy(context)
  {
  }

  /** Text between a fixed front and back changes the whole exactly when it
      is not empty. */
  lemma MiddleMatters(front: string, middle: string, back: string)
    ensures front + middle + back != front + back <==> middle != ""
  {
  }

  /** The context paragraph changes the prompt if and only if the context is
      truthy; a whitespace-only context is truthy and is kept. */
  lemma ContextSectionIffTruthy(entries: seq<(string, string)>, tone: string, context: Option<string>)
    ensures SummaryPrompt(entries, tone, context) != SummaryPrompt(entries, tone, None) <==> Truthy(context)
    ensures Truthy(context) ==>
      SummaryPrompt(entries, tone, context) ==
      PromptHeader(tone) + EntryLines(entries) + ContextLabel + context.value + PromptFooter
  {
    var front := PromptHeader(tone) + EntryLines(entries);
    assert ContextSection(None) == "";
    assert SummaryPrompt(entries, tone, None) == front + PromptFooter;
    ContextSectionEmpty(context);
    MiddleMatters(front, ContextSection(context), PromptFooter);
  }

  // ---------------------------------------------------------------------
  // extract_from_url and extract_from_pdf
  // ---------------------------------------------------------------------

  /** `extract_from_url`: a fixed placeholder record; the URL is not read. */
  function ExtractFromUrl(url: string): seq<(string, string)>
  {
    [("name", "Sample Name"), ("title", "Sample Title"),
     ("company", "Sample Company"), ("about", "Sample About Section")]
  }

  /** Every URL gets the same record, with the keys name, title, company and
      about, in that order. */
  lemma ExtractFromUrlConstant(u1: string, u2: string)
    ensures ExtractFromUrl(u1) == ExtractFromUrl(u2)
    ensures |ExtractFromUrl(u1)| == 4
    ensures ExtractFromUrl(u1)[0].0 == "name" && ExtractFromUrl(u1)[1].0 == "title"
    ensures ExtractFromUrl(u1)[2].0 == "company" && ExtractFromUrl(u1)[3].0 == "about"
  {
  }

  /** The record `extract_from_pdf` returns. */
  datatype PdfText = PdfText(rawText: string, extractedText: string)

  /** The text of all pages, in page order (`text_content += ...`). */
  function PagesText(pages: seq<string>): string
  {
    if pages == [] then "" else PagesText(pages[..|pages| - 1]) + pages[|pages| - 1]
  }

  /** `extract_from_pdf`, given what PyPDF2 reads from the bytes: the text of
      each page, or the message of the exception it raised. The exception is
      re-raised as "Error processing PDF: <message>". */
  method ExtractFromPdf(pages: Result<seq<string>, string>) returns (r: Result<PdfText, string>)
    ensures pages.Err? ==> r == Err("Error processing PDF: " + pages.error)
    ensures pages.Ok? ==> r.Ok? && r.value.rawText == PagesText(pages.value)
    ensures r.Ok? ==> r.value.extractedText == CleanText(r.value.rawText)
  {
    if pages.Err? {
      return Err("Error processing PDF: " + pages.error);
    }
    var ps := pages.value;
    var textContent := "";
    var i := 0;
    while i < |ps|
      invariant 0 <= i <= |ps|
      invariant textContent == PagesText(ps[..i])
    {
      assert ps[..i + 1][..i] == ps[..i];
      textContent := textContent + ps[i];
      i := i + 1;
    }
    assert ps[..i] == ps;
    r := Ok(PdfText(textContent, CleanText(textContent)));
  }

  /** The extracted text of a PDF is single-spaced and has the same tokens as
      its raw text. */
  lemma PdfExtractedTextClean(raw: string)
    ensures SingleSpaced(CleanText(raw))
    ensures Words(CleanText(raw)) == Words(raw)
  {
    CleanTextSingleSpaced(raw);
    CleanTextKeepsWords(raw);
  }
}
