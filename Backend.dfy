/**
  * The Flask service (app.py): the user name taken from a profile URL, the
  * validation branches of the two analysis routes, and the extraction of
  * name, current role and company from the generated summary. The language
  * model (`generate_summary`) is a parameter: a function from the text handed
  * to it to what it returned, `None` standing for a swallowed exception.
  */
module Backend {

  import opened Common
  import opened Text
  import ProfileProcessor

  // ---------------------------------------------------------------------
  // extract_profile_info
  // ---------------------------------------------------------------------

  const ProfilePrefix: string := "LinkedIn profile for user: "
  const ProfilePath: string := "/in/"

  /** `url.split('/in/')[-1].strip('/')`. */
  function Username(url: string): string
  {
    Strip(LastPiece(url, ProfilePath), {'/'})
  }

  /** `extract_profile_info` on a string URL. */
  function ExtractProfileInfo(url: string): string
  {
    ProfilePrefix + Username(url)
  }

  /** The user name is the piece of the URL after the last cut that
      `split('/in/')` makes (all of the URL when `/in/` is absent), with every
      leading and trailing `/` removed and nothing else. */
  lemma UsernameSpec(url: string)
    ensures |LastPiece(url, ProfilePath)| <= |url|
    ensures LastPiece(url, ProfilePath) == url[|url| - |LastPiece(url, ProfilePath)|..]
    ensures !Contains(LastPiece(url, ProfilePath), ProfilePath)
    ensures !Contains(url, ProfilePath) ==> LastPiece(url, ProfilePath) == url
    ensures Contains(url, ProfilePath) ==>
      |LastPiece(url, ProfilePath)| + |ProfilePath| <= |url| &&
      OccursAt(url, ProfilePath, |url| - |LastPiece(url, ProfilePath)| - |ProfilePath|)
    ensures StripStart(LastPiece(url, ProfilePath), {'/'}) + |Username(url)| <= |LastPiece(url, ProfilePath)|
    ensures Username(url) ==
      LastPiece(url, ProfilePath)[StripStart(LastPiece(url, ProfilePath), {'/'})..
                                  StripStart(LastPiece(url, ProfilePath), {'/'}) + |Username(url)|]
    ensures AllIn(LastPiece(url, ProfilePath)[..StripStart(LastPiece(url, ProfilePath), {'/'})], {'/'})
    ensures AllIn(LastPiece(url, ProfilePath)[StripStart(LastPiece(url, ProfilePath), {'/'}) + |Username(url)|..], {'/'})
    ensures Username(url) == [] || (Username(url)[0] != '/' && Username(url)[|Username(url)| - 1] != '/')
  {
    LastPieceSpec(url, ProfilePath);
    StripSpec(LastPiece(url, ProfilePath), {'/'});
  }

  /** The first `/in/` of `"x/in/jd/"` starts at index 1. */
  lemma ExampleIndex()
    ensures IndexOf("x/in/jd/", ProfilePath) == Some(1)
  {
    var url := "x/in/jd/";
    assert url[0] != ProfilePath[0];
    assert !OccursAt(url, ProfilePath, 0);
    assert OccursAt(url, ProfilePath, 1);
  }

  /** `"jd/"` has no `/in/`, so it is its own last piece. */
  lemma ExampleTail()
    ensures LastPiece("jd/", ProfilePath) == "jd/"
  {
  }

  /** Stripping slashes from `"jd/"` leaves `"jd"`. */
  lemma ExampleStrip()
    ensures Strip("jd/", {'/'}) == "jd"
  {
  }

  /** The last piece of `"x/in/jd/"` after `/in/` is `"jd/"`. */
  lemma ExamplePiece()
    ensures LastPiece("x/in/jd/", ProfilePath) == "jd/"
  {
    ExampleIndex();
    assert "x/in/jd/"[5..] == "jd/";
    ExampleTail();
  }

  /** A worked example: `"x/in/jd/"` gives the user `jd`. */
  lemma ExtractProfileInfoExample()
    ensures ExtractProfileInfo("x/in/jd/") == "LinkedIn profile for user: jd"
  {
    ExamplePiece();
    ExampleStrip();
  }

  // ---------------------------------------------------------------------
  // Extraction of name, current role and company from the summary
  // ---------------------------------------------------------------------

  const Unknown: string := "Unknown"

  /** The three fields the routes fill from the summary. */
  datatype Field = Name | CurrentRole | Company

  function Marker(f: Field): string
  {
    match f
    case Name => "Name:"
    case CurrentRole => "Current Role:"
    case Company => "Company:"
  }

  datatype ProfileFields = ProfileFields(name: string, currentRole: string, company: string)
  {
    function Get(f: Field): string
    {
      match f
      case Name => name
      case CurrentRole => currentRole
      case Company => company
    }

    function Set(f: Field, v: string): ProfileFields
    {
      match f
      case Name => this.(name := v)
      case CurrentRole => this.(currentRole := v)
      case Company => this.(company := v)
    }
  }

  const AllUnknown: ProfileFields := ProfileFields(Unknown, Unknown, Unknown)

  /** The field a line sets: the markers are tried in the order `Name:`,
      `Current Role:`, `Company:`, and the first one the line contains wins. */
  function LineField(line: string): Option<Field>
  {
    if Contains(line, "Name:") then Some(Name)
    else if Contains(line, "Current Role:") then Some(CurrentRole)
    else if Contains(line, "Company:") then Some(Company)
    else None
  }

  /** `line.split(marker)[-1].strip()`. */
  function FieldValue(line: string, f: Field): string
  {
    Strip(LastPiece(line, Marker(f)), PyWhitespace)
  }

  function ApplyLine(p: ProfileFields, line: string): ProfileFields
  {
    match LineField(line)
    case None => p
    case Some(f) => p.Set(f, FieldValue(line, f))
  }

  /** The fields after the loop has seen `lines`, in order. */
  function ScanLines(lines: seq<string>): ProfileFields
  {
    if lines == [] then AllUnknown
    else ApplyLine(ScanLines(lines[..|lines| - 1]), lines[|lines| - 1])
  }

  /** The JSON reply of a route: the parsed summary (status 200), or an error
      message with its status code. */
  datatype Reply =
    | Parsed(name: string, currentRole: string, company: string, summary: string)
    | Failure(status: nat, error: string)

  /** The reply both routes build from a generated summary. */
  function ParseSummary(summary: string): Reply
  {
    var p := ScanLines(SplitOn(summary, "\n"));
    Parsed(p.name, p.currentRole, p.company, summary)
  }

  /** The loop of app.py that fills the response dictionary line by line. */
  method ExtractFields(summary: string) returns (reply: Reply)
    ensures reply == ParseSummary(summary)
  {
    var lines := SplitOn(summary, "\n");
    var response := AllUnknown;
    var i := 0;
    while i < |lines|
      invariant 0 <= i <= |lines|
      invariant response == ScanLines(lines[..i])
    {
      var line := lines[i];
      assert lines[..i + 1][..i] == lines[..i];
      if Contains(line, "Name:") {
        response := response.(name := FieldValue(line, Name));
      } else if Contains(line, "Current Role:") {
        response := response.(currentRole := FieldValue(line, CurrentRole));
      } else if Contains(line, "Company:") {
        response := response.(company := FieldValue(line, Company));
      }
      i := i + 1;
    }
    assert lines[..i] == lines;
    reply := Parsed(response.name, response.currentRole, response.company, summary);
  }

  /** A line changes at most one field: the one `LineField` names. */
  lemma ApplyLineAtMostOne(p: ProfileFields, line: string, g: Field)
    ensures LineField(line) != Some(g) ==> ApplyLine(p, line).Get(g) == p.Get(g)
    ensures LineField(line) == Some(g) ==> ApplyLine(p, line).Get(g) == FieldValue(line, g)
  {
  }

  /** A field no line is of stays "Unknown". */
  lemma {:induction false} ScanUnmatchedUnknown(lines: seq<string>, f: Field)
    requires forall i :: 0 <= i < |lines| ==> LineField(lines[i]) != Some(f)
    ensures ScanLines(lines).Get(f) == Unknown
  {
    if lines != [] {
      var init := lines[..|lines| - 1];
      assert forall i :: 0 <= i < |init| ==> init[i] == lines[i];
      ScanUnmatchedUnknown(init, f);
      ApplyLineAtMostOne(ScanLines(init), lines[|lines| - 1], f);
    }
  }

  /** Last match wins: when line `i` is the last line of field `f`'s kind,
      the field holds the value taken from line `i`. */
  lemma {:induction false} ScanLastWins(lines: seq<string>, f: Field, i: nat)
    requires i < |lines| && LineField(lines[i]) == Some(f)
    requires forall j :: i < j < |lines| ==> LineField(lines[j]) != Some(f)
    ensures ScanLines(lines).Get(f) == FieldValue(lines[i], f)
  {
    var init, last := lines[..|lines| - 1], lines[|lines| - 1];
    var before := ScanLines(init);
    assert ScanLines(lines) == ApplyLine(before, last);
    ApplyLineAtMostOne(before, last, f);
    if i == |lines| - 1 {
      assert last == lines[i];
    } else {
      assert LineField(last) != Some(f);
      assert ScanLines(lines).Get(f) == before.Get(f);
      forall j | i < j < |init| ensures LineField(init[j]) != Some(f) {
        assert init[j] == lines[j];
      }
      assert init[i] == lines[i];
      ScanLastWins(init, f, i);
    }
  }

  /** A one-line summary that holds `Name:` sets only the name, even when the
      line also holds `Company:`; the company stays "Unknown". */
  lemma NameLineHidesOtherMarkers(line: string)
    requires Contains(line, "Name:") && !Contains(line, "\n")
    ensures ParseSummary(line) == Parsed(FieldValue(line, Name), Unknown, Unknown, line)
  {
    var lines := SplitOn(line, "\n");
    assert lines == [line];
    assert lines[..0] == [];
    assert LineField(line) == Some(Name);
    assert ScanLines(lines) == ApplyLine(AllUnknown, line);
  }

  // ---------------------------------------------------------------------
  // The two routes
  // ---------------------------------------------------------------------

  /** A value of the JSON request body, as far as the route looks at it. */
  datatype Json = JString(s: string) | JOther(truthy: bool)

  /** Python truthiness of `data.get('url')`. */
  predicate UrlGiven(url: Option<Json>)
  {
    match url
    case None => false
    case Some(JString(s)) => s != ""
    case Some(JOther(b)) => b
  }

  /** The reply of a route and the text it handed to the language model
      (`None` when the model was not called). */
  datatype Handled = Handled(reply: Reply, generatorInput: Option<string>)

  /** What a route does with the model's answer to `input`: `if not summary`
      is a 500, anything else is parsed. */
  function Summarise(input: string, generate: string -> Option<string>): (h: Handled)
    ensures h.generatorInput == Some(input)
    ensures h.reply.Parsed? <==> ProfileProcessor.Truthy(generate(input))
    ensures h.reply.Parsed? ==> h.reply.summary == generate(input).value
    ensures h.reply.Parsed? ==> h.reply == ParseSummary(h.reply.summary)
    ensures h.reply.Failure? ==> h.reply == Failure(500, "Could not generate summary")
  {
    var summary := generate(input);
    if !ProfileProcessor.Truthy(summary) then Handled(Failure(500, "Could not generate summary"), Some(input))
    else Handled(ParseSummary(summary.value), Some(input))
  }

  /** `data.get('url')`. */
  function UrlMember(body: map<string, Json>): Option<Json>
  {
    if "url" in body then Some(body["url"]) else None
  }

  /** `analyze_profile` (POST /api/analyze) on the parsed JSON body. A URL
      that is not a string makes `extract_profile_info` raise, which it turns
      into `None`. */
  function AnalyzeProfile(body: map<string, Json>, generate: string -> Option<string>): (h: Handled)
    ensures !UrlGiven(UrlMember(body)) ==> h == Handled(Failure(400, "No URL provided"), None)
    ensures UrlGiven(UrlMember(body)) && UrlMember(body).value.JOther? ==>
      h == Handled(Failure(400, "Could not extract profile information"), None)
    ensures UrlGiven(UrlMember(body)) && UrlMember(body).value.JString? ==>
      h.generatorInput == Some(ExtractProfileInfo(UrlMember(body).value.s))
    ensures UrlGiven(UrlMember(body)) && UrlMember(body).value.JString? ==>
      h == Summarise(ExtractProfileInfo(UrlMember(body).value.s), generate)
    ensures h.reply.Parsed? ==> h.generatorInput.Some? && generate(h.generatorInput.value) == Some(h.reply.summary)
    ensures h.reply.Parsed? ==> h.reply == ParseSummary(h.reply.summary)
  {
    var url := UrlMember(body);
    if !UrlGiven(url) then Handled(Failure(400, "No URL provided"), None)
    else if url.value.JOther? then Handled(Failure(400, "Could not extract profile information"), None)
    else Summarise(ExtractProfileInfo(url.value.s), generate)
  }

  /** A part of the multipart request: its file name and what PyPDF2 reads
      from it (the text of each page, or the message of the exception). */
  datatype Upload = Upload(filename: string, pages: Result<seq<string>, string>)

  /** `analyze_pdf` (POST /api/analyze-pdf) on the uploaded parts. */
  function AnalyzePdf(files: map<string, Upload>, generate: string -> Option<string>): (h: Handled)
    ensures "pdf" !in files ==> h == Handled(Failure(400, "No PDF file provided"), None)
    ensures "pdf" in files && files["pdf"].filename == "" ==>
      h == Handled(Failure(400, "No file selected"), None)
    ensures "pdf" in files && files["pdf"].filename != "" && files["pdf"].pages.Err? ==>
      h == Handled(Failure(500, "Error processing PDF: " + files["pdf"].pages.error), None)
    ensures "pdf" in files && files["pdf"].filename != "" && files["pdf"].pages.Ok? ==>
      h.generatorInput == Some(ProfileProcessor.PagesText(files["pdf"].pages.value))
    ensures "pdf" in files && files["pdf"].filename != "" && files["pdf"].pages.Ok? ==>
      h == Summarise(ProfileProcessor.PagesText(files["pdf"].pages.value), generate)
    ensures h.reply.Parsed? ==> h.generatorInput.Some? && generate(h.generatorInput.value) == Some(h.reply.summary)
    ensures h.reply.Parsed? ==> h.reply == ParseSummary(h.reply.summary)
  {
    if "pdf" !in files then Handled(Failure(400, "No PDF file provided"), None)
    else if files["pdf"].filename == "" then Handled(Failure(400, "No file selected"), None)
    else match files["pdf"].pages
      case Err(e) => Handled(Failure(500, "Error processing PDF: " + e), None)
      case Ok(pages) => Summarise(ProfileProcessor.PagesText(pages), generate)
  }

  /** Both routes fill the fields the same way: whenever both succeed with
      the same generated summary, their replies are identical. */
  lemma RoutesParseAlike(body: map<string, Json>, files: map<string, Upload>,
                         generate1: string -> Option<string>, generate2: string -> Option<string>)
    ensures (AnalyzeProfile(body, generate1).reply.Parsed? && AnalyzePdf(files, generate2).reply.Parsed? &&
             AnalyzeProfile(body, generate1).reply.summary == AnalyzePdf(files, generate2).reply.summary) ==>
      AnalyzeProfile(body, generate1).reply == AnalyzePdf(files, generate2).reply
  {
  }
}
