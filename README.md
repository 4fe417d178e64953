# LinkedIngest in Dafny

LinkedIngest turns a LinkedIn profile into a summary made by a language model.
The profile is given as a URL or as an exported PDF, and the user can choose a
tone and add free-text context. This project models three parts of it and
proves properties about them:

- **The `Home` page** (`Home.dfy`, from `frontend/src/pages/Home.js`). This is
  a class with the page's six pieces of state: `url`, `tone`, `context`,
  `summary`, `loading` and `uploadedFile`. Its methods are the handlers that
  change that state. Each upload or submission has two phases, because the
  handler `await`s the backend:
  - `BeginPdf` / `BeginUrl` validate the input, set `loading`, and append the
    request they send to a ghost log;
  - `CompletePdf` / `CompleteUrl` take the backend's answer as an input.
    They set `summary` and `loading`, and append the notification (toast) to a
    ghost log.

  The ghost counters `pdfPending` and `urlPending` record how many requests to
  each endpoint are still unanswered.
- **The Flask service** (`Backend.dfy`, from `app.py`). It covers:
  - the user name that `extract_profile_info` takes from a URL;
  - the validation branches of `analyze_profile` and `analyze_pdf`;
  - the loop that extracts name, current role and company from the generated
    summary.

  The language model is a function parameter. `None` stands for the exception
  that `generate_summary` swallows.
- **The text helpers of `ProfileProcessor`** (`ProfileProcessor.dfy`, from
  `backend/utils/profile_processor.py`):
  - `_clean_text`;
  - the prompt built by `_create_summary_prompt`;
  - the placeholder record of `extract_from_url`;
  - the page loop of `extract_from_pdf`, taking the page texts that PyPDF2
    reads as its input.

`Text.dfy` gives these the semantics of the built-ins they call:
- Python's `split()`, `split(sep)`, `strip(chars)`, `join` and `in`;
- JavaScript's `trim`.

Python's `split(sep)` cuts at the leftmost occurrence and the occurrences never
overlap. So `"/in/in/".split("/in/")[-1]` is `"in/"`, not `""`. That is what
`OverlappingSeparator` shows.

The model follows the code as written. In particular:
- `onDrop` has no guard against a second upload while one is pending. Several
  uploads can therefore be in flight, and `loading` becomes false when the
  first of them completes. `Valid` keeps only "loading implies something is in
  flight".
- The URL check is `!url`. A URL made only of spaces is sent.
- There is no input-mode state, no clipboard action, and no check that a
  successful response has a `summary`.
- The frontend posts to `/api/analyze/pdf` (form part `file`) and to
  `/api/analyze/url`, and reads an error's `detail`. `app.py` serves
  `/api/analyze` and `/api/analyze-pdf`, expects the part `pdf`, and reports
  errors under `error`. Each side is modelled as written. `ErrorDescription`
  therefore falls back to its fixed message for every error that `app.py`
  returns.
- No route of `app.py` reads the `tone` or the `context` that the page sends:
  `analyze_profile` reads only `url`, and `analyze_pdf` only the `pdf` part.
  `ProfileProcessor`, whose prompt uses the tone and the context, is created
  nowhere in the service. The prompt and the page are therefore modelled
  separately, with nothing connecting them.

## Model

| member | source | states |
|---|---|---|
| Text.IndexOfSpec | app.py:72-76 | `pat in line` as a search: the index found is an occurrence with none before it, and no index means no occurrence anywhere |
| Text.ContainsIff | app.py:72 | `pat in s` holds exactly when `pat` occurs at some index of `s` |
| Text.SplitOnFree | app.py:63 | no part of `split(sep)` contains the separator |
| Text.JoinSplit | app.py:63 | joining the parts of `split(sep)` with `sep` gives back the string, so the lines cover the whole summary |
| Text.LastPieceFree | app.py:73 | `split(marker)[-1]` never contains the marker |
| Text.LastPieceSuffix | app.py:36 | `split(sep)[-1]` is a suffix of the string, and the whole string when `sep` does not occur |
| Text.LastPieceAfterSep | app.py:36 | when `sep` occurs, `split(sep)[-1]` directly follows an occurrence of it |
| Text.LastPieceIsLastOfSplit | app.py:36 | the last piece is the last element of `split(sep)` |
| Text.LastPieceSpec | app.py:36 | `split(sep)[-1]` is a suffix of the string free of `sep`: the whole string when `sep` is absent, and otherwise directly after an occurrence of `sep` |
| Text.OverlappingSeparator | app.py:36 | with overlapping occurrences, `"/in/in/".split("/in/")[-1]` is `"in/"`, although `/in/` also starts at index 3 |
| Text.StripLeftSpec | app.py:36 | `lstrip(chars)` removes a prefix made only of `chars`, and what is left does not start with one of them |
| Text.StripRightSpec | app.py:36 | `rstrip(chars)` removes a suffix made only of `chars`, and what is left does not end with one of them |
| Text.StripSpec | app.py:73 | `strip(chars)` is the middle of the string: the prefix and suffix removed are made only of `chars`, and the result neither starts nor ends with one |
| Text.StripEmptyIff | frontend/src/pages/Home.js:75 | `trim()` is empty exactly when every character is whitespace |
| Text.StripIdempotent | app.py:73 | stripping twice changes nothing more |
| Text.WordLength | backend/utils/profile_processor.py:66 | the leading token of a string ends at its first whitespace character or at its end |
| Text.Words | backend/utils/profile_processor.py:66 | `split()` yields non-empty tokens that contain no whitespace (that they are all of the string's non-whitespace text, in order, is `WordsCover`) |
| Text.WordsCover | backend/utils/profile_processor.py:66 | the tokens of `split()`, one after the other, are exactly the non-whitespace characters of the string, in order: no token is dropped, reordered or altered |
| Text.LeadingWord | backend/utils/profile_processor.py:66 | `split()` yields the leading token, then the tokens of what follows its first whitespace character |
| Text.WordsCons | backend/utils/profile_processor.py:66 | a token followed by whitespace is the first token of `split()` |
| Text.WordsOfJoin | backend/utils/profile_processor.py:66 | splitting tokens joined by single spaces gives back the tokens |
| Text.JoinWordsEnds | backend/utils/profile_processor.py:66 | tokens joined by spaces start and end with a non-whitespace character |
| ProfileProcessor.JoinWordsSingleSpaced | backend/utils/profile_processor.py:66 | tokens joined by `" "` are single-spaced |
| ProfileProcessor.CleanTextSingleSpaced | backend/utils/profile_processor.py:63-67 | `_clean_text` output has no leading or trailing whitespace, and its only whitespace is single spaces between tokens |
| ProfileProcessor.CleanTextKeepsWords | backend/utils/profile_processor.py:66 | `_clean_text` keeps the tokens of its input, in order |
| ProfileProcessor.CleanTextKeepsText | backend/utils/profile_processor.py:63-67 | `_clean_text` removes only whitespace: the non-whitespace characters of its output are those of its input, in order |
| ProfileProcessor.CleanTextIdempotent | backend/utils/profile_processor.py:66 | cleaning a cleaned text changes nothing |
| ProfileProcessor.SingleSpacedIsClean | backend/utils/profile_processor.py:63-67 | a single-spaced text is unchanged by `_clean_text` |
| ProfileProcessor.CleanTextFixpoints | backend/utils/profile_processor.py:63-67 | the texts `_clean_text` leaves unchanged are exactly the single-spaced ones |
| ProfileProcessor.CreateSummaryPrompt | backend/utils/profile_processor.py:69-80 | the prompt is the header for the tone, one `key: value` line per entry in order, the context paragraph when the context is truthy, then the footer |
| ProfileProcessor.EntryLinesAppend | backend/utils/profile_processor.py:73-74 | the lines of two runs of entries are the lines of each, in order |
| ProfileProcessor.EntryLinesSplit | backend/utils/profile_processor.py:73-74 | the lines of all entries are those of the first `i` entries followed by those of the rest |
| ProfileProcessor.EntryLineInPlace | backend/utils/profile_processor.py:73-74 | entry `i`'s line sits between the lines of the entries before it and those after it |
| ProfileProcessor.PromptFraming | backend/utils/profile_processor.py:71-79 | every prompt starts with the header for its tone and ends with the fixed footer |
| ProfileProcessor.ContextSectionIffTruthy | backend/utils/profile_processor.py:76-77 | the context paragraph changes the prompt if and only if the context is truthy (a whitespace-only context included) |
| ProfileProcessor.ExtractFromUrlConstant | backend/utils/profile_processor.py:13-25 | every URL gives the same record, with keys name, title, company and about in that order |
| ProfileProcessor.ExtractFromPdf | backend/utils/profile_processor.py:27-43 | the raw text is the page texts concatenated in order, the extracted text is its cleaned form, and a reader failure is re-raised as "Error processing PDF: ..." |
| ProfileProcessor.PdfExtractedTextClean | backend/utils/profile_processor.py:38-41 | the extracted text is single-spaced and has the same tokens as the raw text |
| Backend.UsernameSpec | app.py:36-37 | the user name is what follows the last cut of `split('/in/')` (all of the URL when `/in/` is absent), with its leading and trailing `/` removed and nothing else |
| Backend.ExtractProfileInfoExample | app.py:36-37 | `"x/in/jd/"` gives `"LinkedIn profile for user: jd"` |
| Backend.ExtractFields | app.py:63-77 | the line loop yields the fields of `ParseSummary` and keeps the summary verbatim |
| Backend.ApplyLineAtMostOne | app.py:71-77 | a line changes at most one field, the first of `Name:`, `Current Role:`, `Company:` that it contains |
| Backend.ScanUnmatchedUnknown | app.py:64-77 | a field that no line matches stays "Unknown" |
| Backend.ScanLastWins | app.py:71-77 | when several lines match a field, the last one wins, and the value is the stripped text after the marker's last cut |
| Backend.NameLineHidesOtherMarkers | app.py:72-77 | a line with `Name:` sets only the name, even when it also contains `Company:` |
| Backend.Summarise | app.py:57-59 | an empty or missing answer from the model is a 500 "Could not generate summary"; otherwise the answer is parsed and returned verbatim as the summary |
| Backend.AnalyzeProfile | app.py:45-79 | a missing or falsy URL is a 400 "No URL provided" and the model is never called; a non-string URL is a 400 "Could not extract profile information"; otherwise the model is called on `extract_profile_info(url)` and the reply is that of `Summarise`: a 500 "Could not generate summary" for an empty or missing answer, the parsed answer otherwise |
| Backend.AnalyzePdf | app.py:81-122 | a missing `pdf` part is a 400 "No PDF file provided" and an empty file name a 400 "No file selected", before any parsing; a reader failure is a 500 "Error processing PDF: ..."; otherwise the model is called on the page texts and the reply is that of `Summarise`: a 500 "Could not generate summary" for an empty or missing answer, the parsed answer otherwise |
| Backend.RoutesParseAlike | app.py:103-117 | the two routes build identical replies from the same generated summary |
| Home.PdfContextField | frontend/src/pages/Home.js:75-77 | the upload sends the context untrimmed, and only when its trimmed form is not empty |
| Home.UrlContextField | frontend/src/pages/Home.js:130 | the URL request sends the trimmed context, or no context member when the trimmed context is empty |
| Home.ErrorDescription | frontend/src/pages/Home.js:96 | the error text is the response's `detail` when it is a non-empty string, and the handler's fallback otherwise |
| Home.ContextFieldsAgree | frontend/src/pages/Home.js:75-77 | both handlers send a context in the same cases; the URL one is the trim of the PDF one; a sent context is a non-empty string, so Python's `if context:` would keep it |
| Home.Home.constructor | frontend/src/pages/Home.js:32-37 | the initial state: empty URL, tone "professional", empty context and summary, not loading, no file, nothing sent |
| Home.Home.SetUrl | frontend/src/pages/Home.js:232 | typing in the URL field changes only `url` |
| Home.Home.SetTone | frontend/src/pages/Home.js:376-387 | choosing a tone changes only `tone`, to one of the five options |
| Home.Home.SetContext | frontend/src/pages/Home.js:393 | typing in the context field changes only `context` |
| Home.Home.BeginPdf | frontend/src/pages/Home.js:45-83 | an empty drop changes nothing; a non-PDF is refused with "Invalid file type"; a PDF is stored before its size is checked; a PDF over 10 MB gets "File too large" and nothing is sent; otherwise exactly one upload of file, tone and context goes to `/api/analyze/pdf` and the page is loading |
| Home.Home.CompletePdf | frontend/src/pages/Home.js:85-103 | on success the summary is the response's and "Profile analyzed successfully" is shown; on failure the summary is cleared and the detail or "Error processing PDF file" is shown; loading ends, and URL, tone, context and file are untouched |
| Home.Home.BeginUrl | frontend/src/pages/Home.js:114-131 | an empty URL only shows "Please enter a LinkedIn URL"; any other URL, verbatim, is sent with the tone and the trimmed context to `/api/analyze/url` and the page is loading |
| Home.Home.CompleteUrl | frontend/src/pages/Home.js:132-150 | as for an upload, with "Something went wrong" as the fallback error text |
| Home.Home.RemoveFile | frontend/src/pages/Home.js:321-332 | offered only while a file is held and nothing loads; it drops the file, clears the summary and changes nothing else |

## Left out

- Network, file and clock I/O: the backend's answer, the model's answer and the page texts are inputs. The axios/FormData transport, the `/api` base URL and `console.error` are not modelled.
- The OpenAI calls (`generate_summary` in app.py and in profile_processor.py) are foreign services. The prompt that app.py's `generate_summary` wraps around the profile text is not modelled.
- PyPDF2 page extraction is a foreign library. The requests and BeautifulSoup imports are unused.
- Flask routing, CORS, dotenv, `app.run`, and the `render_template` home route are plumbing.
- A JSON body that is not an object (where `data.get` raises) is not modelled. JSON values other than strings are modelled only by their truthiness.
- `ProfileProcessor.__init__` only stores the API key.
- backend/main.py and api/index.py (mock FastAPI services) are not part of this model.
- Rendering, Chakra styling, colour modes, the dropzone configuration (`accept`, `multiple`) and toast durations are presentational. `BeginPdf` handles whatever the dropzone passes in `acceptedFiles`.
- Home.Home.SetTone: requires a value the selector offers, because the select element yields no other value.
- Home.Home.BeginUrl: requires `!loading`, because the button's `isLoading` disables it while a request is pending.
- Home.Home.RemoveFile: requires a held file and `!loading`, because the button is rendered only then.
- Home.ErrorDescription: a `detail` that is not a string is not modelled.
- Home.Home.CompletePdf: a `summary` in the response that is not a string is not modelled. A missing one is modelled as `None` (`undefined`).
- Interleaving of React state updates is not modelled beyond the begin/complete split. Nothing is cancelled, and each completion names the endpoint it answers.
