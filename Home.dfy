/**
  * The `Home` page of the frontend (frontend/src/pages/Home.js): its six
  * pieces of state and the handlers that change them. A request is modelled
  * in two phases, because the handlers `await` the backend: the `Begin...`
  * half validates, sets `loading` and records the request it sends; the
  * `Complete...` half takes the backend's answer as an input and moves
  * `summary`, `loading` and the notifications to their final state. The
  * requests sent and the notifications shown are kept as ghost logs.
  */
module Home {

  import opened Common
  import opened Text
  import ProfileProcessor

  // ---------------------------------------------------------------------
  // Values exchanged with the browser and the backend
  // ---------------------------------------------------------------------

  /** A dropped file as the browser reports it; `size` is in bytes. */
  datatype File = File(name: string, mediaType: string, size: nat)

  /** The two backend endpoints the page posts to. */
  datatype Endpoint = PdfEndpoint | UrlEndpoint
  {
    /** The path each handler posts to. */
    function Path(): string
    {
      match this
      case PdfEndpoint => "/api/analyze/pdf"
      case UrlEndpoint => "/api/analyze/url"
    }
  }

  /** The body of a request: multipart form fields for a PDF, a JSON object
      for a URL. `None` is a field that is not sent at all. */
  datatype Payload =
    | PdfForm(file: File, tone: string, context: Option<string>)
    | UrlJson(url: string, tone: string, context: Option<string>)

  datatype Request = Request(endpoint: Endpoint, payload: Payload)

  datatype ToastStatus = ErrorStatus | SuccessStatus

  /** The notifications the page shows. Each has a title, a description and a
      status; only the error after a failed request has a description that
      varies. */
  datatype Toast =
    | InvalidTypeToast
    | TooLargeToast
    | MissingUrlToast
    | SuccessToast
    | ErrorToast(detail: string)
  {
    function Title(): string
    {
      match this
      case InvalidTypeToast => "Invalid file type"
      case TooLargeToast => "File too large"
      case SuccessToast => "Success"
      case _ => "Error"
    }

    function Description(): string
    {
      match this
      case InvalidTypeToast => "Please upload a PDF file of your LinkedIn profile"
      case TooLargeToast => "Please upload a PDF file smaller than 10MB"
      case MissingUrlToast => "Please enter a LinkedIn URL"
      case SuccessToast => "Profile analyzed successfully"
      case ErrorToast(d) => d
    }

    function Status(): ToastStatus
    {
      if this == SuccessToast then SuccessStatus else ErrorStatus
    }
  }

  /** What an awaited `axios.post` gives back: the response's `summary`
      (`None` when the body has none, which the page does not check), or the
      `detail` of an error response (`None` when there is none). */
  datatype Outcome = Succeeded(summary: Option<string>) | Failed(detail: Option<string>)

  const PdfType: string := "application/pdf"

  /** The 10 MB upload limit. */
  const MaxPdfBytes: nat := 10 * 1024 * 1024

  /** The options of the tone selector. */
  const Tones: set<string> := {"professional", "casual", "friendly", "formal", "enthusiastic"}

  const PdfFallback: string := "Error processing PDF file"
  const UrlFallback: string := "Something went wrong"

  // ---------------------------------------------------------------------
  // Pure decisions the handlers make
  // ---------------------------------------------------------------------

  /** The `context` form field of a PDF upload: the context as typed, sent
      only when `context.trim()` is not empty. */
  function PdfContextField(context: string): (r: Option<string>)
    ensures r.Some? <==> !AllIn(context, JsWhitespace)
    ensures r.Some? ==> r.value == context
  {
    StripEmptyIff(context, JsWhitespace);
    if Strip(context, JsWhitespace) != "" then Some(context) else None
  }

  /** The `context` member of the URL request: `context.trim() || undefined`,
      so the trimmed context, or no member at all when it is empty. */
  function UrlContextField(context: string): (r: Option<string>)
    ensures r.Some? <==> !AllIn(context, JsWhitespace)
    ensures r.Some? ==> r.value == Strip(context, JsWhitespace)
  {
    StripEmptyIff(context, JsWhitespace);
    var trimmed := Strip(context, JsWhitespace);
    if trimmed != "" then Some(trimmed) else None
  }

  /** `error.response?.data?.detail || fallback`: an absent or empty detail
      gives the fallback. */
  function ErrorDescription(detail: Option<string>, fallback: string): (d: string)
    ensures ProfileProcessor.Truthy(detail) ==> d == detail.value
    ensures !ProfileProcessor.Truthy(detail) ==> d == fallback
  {
    match detail
    case Some(s) => if s != "" then s else fallback
    case None => fallback
  }

  /** The two handlers send a context in the same cases; the URL handler
      sends it trimmed, with no whitespace at either end, and the PDF handler
      as typed. Either way a sent context is a non-empty string, so Python's
      `if context:` would keep it. */
  lemma ContextFieldsAgree(context: string)
    ensures PdfContextField(context).Some? <==> UrlContextField(context).Some?
    ensures UrlContextField(context).Some? ==>
      var t := UrlContextField(context).value;
      t == Strip(PdfContextField(context).value, JsWhitespace) &&
      t[0] !in JsWhitespace && t[|t| - 1] !in JsWhitespace
    ensures ProfileProcessor.Truthy(PdfContextField(context)) <==> PdfContextField(context).Some?
    ensures ProfileProcessor.Truthy(UrlContextField(context)) <==> UrlContextField(context).Some?
  {
    StripEmptyIff(context, JsWhitespace);
    StripSpec(context, JsWhitespace);
    if PdfContextField(context).Some? {
      assert context != [];
    }
  }

  // ---------------------------------------------------------------------
  // The page
  // ---------------------------------------------------------------------

  class Home {
    var url: string
    var tone: string
    var context: string
    /** `None` is `undefined`, which a successful response without a
        `summary` member leaves behind. */
    var summary: Option<string>
    var loading: bool
    var uploadedFile: Option<File>

    /** Every request sent, in order. */
    ghost var requests: seq<Request>
    /** Every notification shown, in order. */
    ghost var toasts: seq<Toast>
    /** How many requests to each endpoint are sent and not yet answered. */
    ghost var pdfPending: nat
    ghost var urlPending: nat

    ghost function Pending(endpoint: Endpoint): nat
      reads this
    {
      match endpoint
      case PdfEndpoint => pdfPending
      case UrlEndpoint => urlPending
    }

    /** The tone is one the selector offers, a held file is a PDF, and the
        page shows its spinner only while some request is unanswered. */
    ghost predicate Valid()
      reads this
    {
      tone in Tones &&
      (uploadedFile.Some? ==> uploadedFile.value.mediaType == PdfType) &&
      (loading ==> pdfPending + urlPending > 0)
    }

    /** The initial state of the `useState` hooks. */
    constructor ()
      ensures Valid()
      ensures url == "" && tone == "professional" && context == ""
      ensures summary == Some("") && !loading && uploadedFile == None
      ensures requests == [] && toasts == [] && pdfPending == 0 && urlPending == 0
    {
      url := "";
      tone := "professional";
      context := "";
      summary := Some("");
      loading := false;
      uploadedFile := None;
      requests := [];
      toasts := [];
      pdfPending, urlPending := 0, 0;
    }

    /** The URL input's `onChange`. */
    method SetUrl(value: string)
      requires Valid()
      modifies this
      ensures Valid()
      ensures url == value
      ensures tone == old(tone) && context == old(context) && summary == old(summary)
      ensures loading == old(loading) && uploadedFile == old(uploadedFile)
      ensures requests == old(requests) && toasts == old(toasts) && pdfPending == old(pdfPending) && urlPending == old(urlPending)
    {
      url := value;
    }

    /** The tone selector's `onChange`; its values are the options offered. */
    method SetTone(value: string)
      requires Valid() && value in Tones
      modifies this
      ensures Valid()
      ensures tone == value
      ensures url == old(url) && context == old(context) && summary == old(summary)
      ensures loading == old(loading) && uploadedFile == old(uploadedFile)
      ensures requests == old(requests) && toasts == old(toasts) && pdfPending == old(pdfPending) && urlPending == old(urlPending)
    {
      tone := value;
    }

    /** The context text area's `onChange`. */
    method SetContext(value: string)
      requires Valid()
      modifies this
      ensures Valid()
      ensures context == value
      ensures url == old(url) && tone == old(tone) && summary == old(summary)
      ensures loading == old(loading) && uploadedFile == old(uploadedFile)
      ensures requests == old(requests) && toasts == old(toasts) && pdfPending == old(pdfPending) && urlPending == old(urlPending)
    {
      context := value;
    }

    /** `onDrop` up to its `await`. Nothing guards against a drop while a
        request is pending, so several uploads can be in flight. */
    method BeginPdf(acceptedFiles: seq<File>)
      requires Valid()
      modifies this
      ensures Valid()
      ensures url == old(url) && tone == old(tone) && context == old(context)
      ensures summary == old(summary)
      // No file: nothing happens.
      ensures acceptedFiles == [] ==>
        loading == old(loading) && uploadedFile == old(uploadedFile) &&
        requests == old(requests) && toasts == old(toasts) && pdfPending == old(pdfPending) && urlPending == old(urlPending)
      // Not a PDF: rejected with a notification, nothing stored or sent.
      ensures acceptedFiles != [] && acceptedFiles[0].mediaType != PdfType ==>
        loading == old(loading) && uploadedFile == old(uploadedFile) &&
        requests == old(requests) && toasts == old(toasts) + [InvalidTypeToast] &&
        pdfPending == old(pdfPending) && urlPending == old(urlPending)
      // A PDF is stored before its size is checked; too large, it is not sent.
      ensures acceptedFiles != [] && acceptedFiles[0].mediaType == PdfType ==>
        uploadedFile == Some(acceptedFiles[0])
      ensures (acceptedFiles != [] && acceptedFiles[0].mediaType == PdfType &&
               acceptedFiles[0].size > MaxPdfBytes) ==>
        loading == old(loading) && requests == old(requests) &&
        toasts == old(toasts) + [TooLargeToast] && pdfPending == old(pdfPending) && urlPending == old(urlPending)
      // Otherwise exactly one upload is sent and the page is loading.
      ensures (acceptedFiles != [] && acceptedFiles[0].mediaType == PdfType &&
               acceptedFiles[0].size <= MaxPdfBytes) ==>
        loading &&
        requests == old(requests) +
          [Request(PdfEndpoint, PdfForm(acceptedFiles[0], old(tone), PdfContextField(old(context))))] &&
        toasts == old(toasts) && pdfPending == old(pdfPending) + 1 && urlPending == old(urlPending)
    {
      if acceptedFiles == [] {
        return;
      }
      var file := acceptedFiles[0];
      if file.mediaType != PdfType {
        toasts := toasts + [InvalidTypeToast];
        return;
      }
      uploadedFile := Some(file);
      if file.size > MaxPdfBytes {
        toasts := toasts + [TooLargeToast];
        return;
      }
      var formContext := PdfContextField(context);
      loading := true;
      requests := requests + [Request(PdfEndpoint, PdfForm(file, tone, formContext))];
      pdfPending := pdfPending + 1;
    }

    /** `onDrop` after its `await`: the `try`/`catch`/`finally` tail. */
    method CompletePdf(outcome: Outcome)
      requires Valid() && pdfPending > 0
      modifies this
      ensures Valid()
      ensures !loading && pdfPending == old(pdfPending) - 1 && urlPending == old(urlPending)
      ensures url == old(url) && tone == old(tone) && context == old(context)
      ensures uploadedFile == old(uploadedFile) && requests == old(requests)
      ensures outcome.Succeeded? ==>
        summary == outcome.summary && toasts == old(toasts) + [SuccessToast]
      ensures outcome.Failed? ==>
        summary == Some("") &&
        toasts == old(toasts) + [ErrorToast(ErrorDescription(outcome.detail, PdfFallback))]
    {
      Complete(outcome, PdfEndpoint, PdfFallback);
    }

    /** `handleUrlSubmit` up to its `await`. The submit button is disabled
        while `loading`, and only an empty URL is refused. */
    method BeginUrl()
      requires Valid() && !loading
      modifies this
      ensures Valid()
      ensures url == old(url) && tone == old(tone) && context == old(context)
      ensures summary == old(summary) && uploadedFile == old(uploadedFile)
      ensures url == "" ==>
        !loading && requests == old(requests) && toasts == old(toasts) + [MissingUrlToast] &&
        pdfPending == old(pdfPending) && urlPending == old(urlPending)
      ensures url != "" ==>
        loading &&
        requests == old(requests) + [Request(UrlEndpoint, UrlJson(old(url), old(tone), UrlContextField(old(context))))] &&
        toasts == old(toasts) && urlPending == old(urlPending) + 1 && pdfPending == old(pdfPending)
    {
      if url == "" {
        toasts := toasts + [MissingUrlToast];
        return;
      }
      var bodyContext := UrlContextField(context);
      loading := true;
      requests := requests + [Request(UrlEndpoint, UrlJson(url, tone, bodyContext))];
      urlPending := urlPending + 1;
    }

    /** `handleUrlSubmit` after its `await`. */
    method CompleteUrl(outcome: Outcome)
      requires Valid() && urlPending > 0
      modifies this
      ensures Valid()
      ensures !loading && urlPending == old(urlPending) - 1 && pdfPending == old(pdfPending)
      ensures url == old(url) && tone == old(tone) && context == old(context)
      ensures uploadedFile == old(uploadedFile) && requests == old(requests)
      ensures outcome.Succeeded? ==>
        summary == outcome.summary && toasts == old(toasts) + [SuccessToast]
      ensures outcome.Failed? ==>
        summary == Some("") &&
        toasts == old(toasts) + [ErrorToast(ErrorDescription(outcome.detail, UrlFallback))]
    {
      Complete(outcome, UrlEndpoint, UrlFallback);
    }

    /** The tail both handlers share: store the summary and notify on
        success; notify with the error detail (or `fallback`) and clear the
        summary on failure; stop loading either way. */
    method Complete(outcome: Outcome, endpoint: Endpoint, fallback: string)
      requires Valid() && Pending(endpoint) > 0
      modifies this
      ensures Valid()
      ensures !loading && Pending(endpoint) == old(Pending(endpoint)) - 1
      ensures endpoint == PdfEndpoint ==> urlPending == old(urlPending)
      ensures endpoint == UrlEndpoint ==> pdfPending == old(pdfPending)
      ensures url == old(url) && tone == old(tone) && context == old(context)
      ensures uploadedFile == old(uploadedFile) && requests == old(requests)
      ensures outcome.Succeeded? ==>
        summary == outcome.summary && toasts == old(toasts) + [SuccessToast]
      ensures outcome.Failed? ==>
        summary == Some("") &&
        toasts == old(toasts) + [ErrorToast(ErrorDescription(outcome.detail, fallback))]
    {
      var shown := match outcome
        case Succeeded(s) => s
        case Failed(_) => Some("");
      var toast := match outcome
        case Succeeded(_) => SuccessToast
        case Failed(detail) => ErrorToast(ErrorDescription(detail, fallback));
      summary, toasts, loading := shown, toasts + [toast], false;
      match endpoint {
        case PdfEndpoint => pdfPending := pdfPending - 1;
        case UrlEndpoint => urlPending := urlPending - 1;
      }
    }

    /** The Remove File button, shown only while a file is held and nothing
        is loading. */
    method RemoveFile()
      requires Valid() && uploadedFile.Some? && !loading
      modifies this
      ensures Valid()
      ensures uploadedFile == None && summary == Some("")
      ensures url == old(url) && tone == old(tone) && context == old(context) && !loading
      ensures requests == old(requests) && toasts == old(toasts) && pdfPending == old(pdfPending) && urlPending == old(urlPending)
    {
      uploadedFile := None;
      summary := Some("");
    }
  }
}
