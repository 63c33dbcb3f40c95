/** The OCR and extraction calls of the thread-based generation
    (`src/housing_ocr/ocr.py`): the retrying image request to the local
    vLLM server, the page-by-page PDF assembly, the dispatch on the file's
    suffix, and the guard around the property extraction request. The
    server's replies are given: `Posts` is what each of the three possible
    requests would get back. */
module HousingOcr {
  import opened Wrappers
  import opened Text
  import opened Json
  import opened OcrFailure
  import Llm

  const VllmApiUrl: string := "http://localhost:8000/v1/chat/completions"

  /** `MAX_RETRIES`: the most requests one image gets. */
  const MaxRetries: nat := 3

  /** What one POST to the OCR server does: answers with content, fails to
      connect, times out, fails with another request error (an HTTP error
      status, a body that is not JSON), or answers without
      `choices[0].message.content`, which raises out of `process_image`. */
  datatype Post =
    | Answer(content: string)
    | ConnectionError
    | TimeoutError
    | RequestError(detail: string)
    | BadAnswer(error: string)

  /** The replies the first, second and third request would get. */
  datatype Posts = Posts(first: Post, second: Post, third: Post)

  function PostAt(posts: Posts, k: nat): Post
    requires k < MaxRetries
  {
    if k == 0 then posts.first else if k == 1 then posts.second else posts.third
  }

  /** What a call returns, or the message of the exception it raises. */
  datatype Outcome = Returned(text: string) | Raised(error: string)

  const ConnectionMsg: string := ErrorMarker + "无法连接到vLLM服务器 (" + VllmApiUrl + ")，请确认'just server'已启动"
  const TimeoutMsg: string := ErrorMarker + "请求超时"
  const UnknownMsg: string := ErrorMarker + "未知错误"

  /** A failure that is retried while attempts remain. */
  predicate Transient(p: Post) {
    p.ConnectionError? || p.TimeoutError?
  }

  /** What `process_image` gives when it stops at a request with this reply. */
  function Final(p: Post): Outcome {
    match p
    case Answer(c) => Returned(c)
    case ConnectionError => Returned(ConnectionMsg)
    case TimeoutError => Returned(TimeoutMsg)
    case RequestError(d) => Returned(ErrorMarker + d)
    case BadAnswer(e) => Raised(e)
  }

  /** The request `process_image` stops at: the first whose failure is not
      retried, or the last. */
  function StopAt(posts: Posts): (k: nat)
    ensures k < MaxRetries
    ensures forall j :: 0 <= j < k ==> Transient(PostAt(posts, j))
    ensures k < MaxRetries - 1 ==> !Transient(PostAt(posts, k))
  {
    if !Transient(posts.first) then 0 else if !Transient(posts.second) then 1 else 2
  }

  /** The retry loop of `process_image` from attempt `attempt` on: the
      outcome and the number of requests made in all. */
  function ImageFrom(posts: Posts, attempt: nat): (r: (Outcome, nat))
    requires attempt <= MaxRetries
    ensures attempt < MaxRetries ==> attempt < r.1 <= MaxRetries
    decreases MaxRetries - attempt
  {
    if attempt == MaxRetries then (Returned(UnknownMsg), attempt)
    else
      var p := PostAt(posts, attempt);
      if Transient(p) && attempt < MaxRetries - 1 then ImageFrom(posts, attempt + 1)
      else (Final(p), attempt + 1)
  }

  /** `process_image` stops at `StopAt(posts)`: retried failures before it
      cost one request each, the reply there decides the outcome, and no
      request follows it. So at most three requests are made, the first
      answer wins, and another request error ends the loop at once. */
  lemma {:induction false} ImageStops(posts: Posts, attempt: nat)
    requires attempt <= StopAt(posts)
    ensures ImageFrom(posts, attempt) == (Final(PostAt(posts, StopAt(posts))), StopAt(posts) + 1)
    decreases MaxRetries - attempt
  {
    if attempt < StopAt(posts) {
      ImageStops(posts, attempt + 1);
    }
  }

  /** The line after the loop is never reached: the outcome is never the
      fallback unless the server sent that very text. */
  lemma ImageNeverFallsThrough(posts: Posts)
    ensures ImageFrom(posts, 0).1 <= MaxRetries
    ensures ImageFrom(posts, 0).0 == Returned(UnknownMsg) ==>
              PostAt(posts, StopAt(posts)) in {Answer(UnknownMsg), RequestError("未知错误")}
  {
    ImageStops(posts, 0);
    var p := PostAt(posts, StopAt(posts));
    if Final(p) == Returned(UnknownMsg) && p.RequestError? {
      assert ErrorMarker + p.detail == ErrorMarker + "未知错误";
      assert p.detail == (ErrorMarker + p.detail)[|ErrorMarker|..];
    }
    if Final(p) == Returned(UnknownMsg) {
      assert p.Answer? || p.RequestError? || p.ConnectionError? || p.TimeoutError?;
      assert ConnectionMsg != UnknownMsg by { assert ConnectionMsg[|ErrorMarker|] != UnknownMsg[|ErrorMarker|]; }
      assert TimeoutMsg != UnknownMsg by { assert TimeoutMsg[|ErrorMarker|] != UnknownMsg[|ErrorMarker|]; }
    }
  }

  /** `process_image(image_path)`: up to three requests, retrying connection
      errors and time-outs. */
  method ProcessImage(posts: Posts) returns (out: Outcome, made: nat)
    ensures (out, made) == ImageFrom(posts, 0)
  {
    var attempt: nat := 0;
    while attempt < MaxRetries
      invariant attempt <= MaxRetries
      invariant ImageFrom(posts, attempt) == ImageFrom(posts, 0)
      decreases MaxRetries - attempt
    {
      match PostAt(posts, attempt) {
        case Answer(c) =>
          return Returned(c), attempt + 1;
        case ConnectionError =>
          if attempt == MaxRetries - 1 {
            return Returned(ConnectionMsg), attempt + 1;
          }
        case TimeoutError =>
          if attempt == MaxRetries - 1 {
            return Returned(TimeoutMsg), attempt + 1;
          }
        case RequestError(d) =>
          return Returned(ErrorMarker + d), attempt + 1;
        case BadAnswer(e) =>
          return Raised(e), attempt + 1;
      }
      attempt := attempt + 1;
    }
    out, made := Returned(UnknownMsg), attempt;
  }

  /** A PDF as `convert_from_path` gives it: the replies for each rendered
      page, or the message of the error that stopped the rendering. */
  datatype Pdf = Pages(pages: seq<Posts>) | Unrenderable(error: string)

  /** The header of page number `n` (1-based). */
  function PageHeader(n: nat): string {
    "--- 第 " + NatToString(n) + " 页 ---\n"
  }

  /** The section of page number `n`: its header and its text, or "错误: "
      and the message when its request raised. */
  function PageSection(n: nat, o: Outcome): (s: string)
    ensures StartsWith(s, PageHeader(n))
    ensures o.Returned? ==> s[|PageHeader(n)|..] == o.text
    ensures o.Raised? ==> s[|PageHeader(n)|..] == "错误: " + o.error
  {
    var body := if o.Returned? then o.text else "错误: " + o.error;
    assert (PageHeader(n) + body)[|PageHeader(n)|..] == body;
    PageHeader(n) + body
  }

  /** One section per page, in page order, a failing page included. */
  function PdfSections(pages: seq<Posts>): (r: seq<string>)
    ensures |r| == |pages|
    ensures forall k :: 0 <= k < |pages| ==> r[k] == PageSection(k + 1, ImageFrom(pages[k], 0).0)
  {
    seq(|pages|, k requires 0 <= k < |pages| => PageSection(k + 1, ImageFrom(pages[k], 0).0))
  }

  lemma PdfSectionsSnoc(pages: seq<Posts>, i: nat)
    requires i < |pages|
    ensures PdfSections(pages[..i + 1]) == PdfSections(pages[..i]) + [PageSection(i + 1, ImageFrom(pages[i], 0).0)]
  {
    var a, c := PdfSections(pages[..i + 1]), PdfSections(pages[..i]);
    assert forall k :: 0 <= k < i ==> pages[..i + 1][k] == pages[..i][k];
    assert forall k :: 0 <= k < i ==> a[k] == c[k];
    assert pages[..i + 1][i] == pages[i];
    assert a == c + [a[i]];
  }

  /** What `process_pdf` returns. */
  function PdfText(pdf: Pdf): string {
    match pdf
    case Pages(pages) => Join("\n\n", PdfSections(pages))
    case Unrenderable(e) => "PDF处理错误: " + e
  }

  /** `process_pdf(pdf_path)`: every page is sent as an image and labelled
      with its number; a page whose request raised is labelled with the
      error, and the loop goes on. */
  method ProcessPdf(pdf: Pdf) returns (text: string)
    ensures text == PdfText(pdf)
  {
    if pdf.Unrenderable? {
      return "PDF处理错误: " + pdf.error;
    }
    var pages := pdf.pages;
    var parts: seq<string> := [];
    var i := 0;
    while i < |pages|
      invariant 0 <= i <= |pages|
      invariant parts == PdfSections(pages[..i])
    {
      var pageText, made := ProcessImage(pages[i]);
      PdfSectionsSnoc(pages, i);
      parts := parts + [PageSection(i + 1, pageText)];
      i := i + 1;
    }
    assert pages[..i] == pages;
    text := Join("\n\n", parts);
  }

  /** Where `process_document` sends a file, by its lower-cased suffix. */
  datatype Route = PdfRoute | ImageRoute | Unsupported(ext: string)

  /** `Path(file_path).suffix.lower()` decides: ".pdf" is a PDF, ".jpg",
      ".jpeg" and ".png" are images, anything else is unsupported. */
  function RouteOf(path: string): (r: Route)
    ensures r == PdfRoute <==> Lower(Suffix(path)) == ".pdf"
    ensures r == ImageRoute <==> Lower(Suffix(path)) in [".jpg", ".jpeg", ".png"]
    ensures r.Unsupported? ==> r.ext == Lower(Suffix(path))
  {
    RouteOfSuffix(Lower(Suffix(path)))
  }

  /** The route for a lower-cased suffix. */
  function RouteOfSuffix(ext: string): (r: Route)
    ensures r == PdfRoute <==> ext == ".pdf"
    ensures r == ImageRoute <==> ext in [".jpg", ".jpeg", ".png"]
    ensures r.Unsupported? ==> r.ext == ext
  {
    if ext == ".pdf" then PdfRoute
    else if ext in [".jpg", ".jpeg", ".png"] then ImageRoute
    else Unsupported(ext)
  }

  /** `process_document(file_path)`: a missing file raises; otherwise the
      route chooses the PDF or the image path, and an unsupported suffix gives
      a message naming it. */
  method ProcessDocument(path: string, exists_: bool, pdf: Pdf, image: Posts) returns (out: Outcome)
    ensures !exists_ ==> out == Raised("文件不存在: " + path)
    ensures exists_ && RouteOf(path) == PdfRoute ==> out == Returned(PdfText(pdf))
    ensures exists_ && RouteOf(path) == ImageRoute ==> out == ImageFrom(image, 0).0
    ensures exists_ && RouteOf(path).Unsupported? ==> out == Returned("不支持的文件类型: " + RouteOf(path).ext)
  {
    if !exists_ {
      return Raised("文件不存在: " + path);
    }
    match RouteOf(path) {
      case PdfRoute =>
        var text := ProcessPdf(pdf);
        out := Returned(text);
      case ImageRoute =>
        var made;
        out, made := ProcessImage(image);
      case Unsupported(ext) =>
        out := Returned("不支持的文件类型: " + ext);
    }
  }

  /** What the extraction request to the LLM service does: answers with
      content, or fails in any way (connection, HTTP status, a body without
      `choices[0].message.content`). */
  datatype Completion = Completed(content: string) | CallFailed

  /** `extract_property_info(text, model)` with API key `apiKey`: the
      properties and whether a request was made. No key means no request
      and no properties; any failure, a reply without a `{ ... }` part, or
      one `parse` (`json.loads`) rejects gives no properties; otherwise the
      parsed object of the first-'{'-to-last-'}' part. */
  function ExtractPropertyInfo(apiKey: string, reply: Completion, parse: string -> Option<Props>): (r: (Props, bool))
    ensures r.1 <==> apiKey != ""
    ensures r.0 != map[] ==> apiKey != "" && reply.Completed? && JsonSlice(reply.content).Some?
                             && parse(JsonSlice(reply.content).value) == Some(r.0)
    ensures (apiKey != "" && reply.Completed? && JsonSlice(reply.content).Some?
             && parse(JsonSlice(reply.content).value).Some?) ==>
              r.0 == parse(JsonSlice(reply.content).value).value
  {
    if apiKey == "" then (map[], false)
    else if reply.CallFailed? then (map[], true)
    else (Llm.ExtractJson(reply.content, parse).GetOr(map[]), true)
  }
}
