/**
  `gatherResponse`: how the handler reads the body of a notification service's
  reply. The `content-type` header picks one of four branches; only the JSON
  branch parses the body (and serialises it back to text), the other three
  read it as text.
 */
module GatherResponse {
  import opened Js

  /** The parts of a fetch `Response` that are read: the `content-type` header
      (`headers.get` gives `null` when it is absent) and the body text. */
  datatype Response = Response(contentType: JsText, body: string)

  /** The branches of the `if` chain, in source order. */
  datatype Branch = JsonBranch | AppTextBranch | HtmlBranch | OtherBranch

  /** How the body is consumed: `response.json()` then `JSON.stringify`, or
      `response.text()`. */
  datatype Reading = AsJson | AsText

  /** `headers.get('content-type') || ''`: a present header keeps its value,
      and the result is empty exactly when the header is missing or empty. */
  function HeaderOrEmpty(h: JsText): (r: string)
    ensures h.Str? ==> r == h.s
    ensures r == "" <==> h == Null || h == Undefined || h == Str("")
  {
    match h
    case Str(s) => s  // `'' || ''` is `''` as well
    case _ => ""
  }

  /** The `if` chain over the header, first match wins: a header naming both
      JSON and HTML takes the JSON branch, and a branch is taken only when
      every earlier test failed. The body is read as JSON exactly when
      "application/json" occurs somewhere in the header. */
  function SelectBranch(contentType: string): (b: Branch)
    ensures b == JsonBranch <==> exists i :: OccursAt(contentType, "application/json", i)
    ensures b == AppTextBranch <==> !Includes(contentType, "application/json")
                                    && Includes(contentType, "application/text")
    ensures b == HtmlBranch <==> !Includes(contentType, "application/json")
                                 && !Includes(contentType, "application/text")
                                 && Includes(contentType, "text/html")
    ensures ReadingOf(b) == AsJson <==> b == JsonBranch
  {
    if Includes(contentType, "application/json") then JsonBranch
    else if Includes(contentType, "application/text") then AppTextBranch
    else if Includes(contentType, "text/html") then HtmlBranch
    else OtherBranch
  }

  function ReadingOf(b: Branch): Reading {
    match b
    case JsonBranch => AsJson
    case AppTextBranch => AsText
    case HtmlBranch => AsText
    case OtherBranch => AsText
  }

  /** The text `gatherResponse` resolves to, or the failure it rejects with.
      `reserialise` stands for `JSON.stringify(await response.json())`, which
      fails when the body is not JSON. */
  function Gather(resp: Response, reserialise: string -> Result<string>): (r: Result<string>)
    ensures Includes(HeaderOrEmpty(resp.contentType), "application/json") ==> r == reserialise(resp.body)
    ensures !Includes(HeaderOrEmpty(resp.contentType), "application/json") ==> r == Ok(resp.body)
    ensures r.Err? ==> r == reserialise(resp.body)
  {
    match ReadingOf(SelectBranch(HeaderOrEmpty(resp.contentType)))
    case AsJson => reserialise(resp.body)
    case AsText => Ok(resp.body)
  }

  /** The body is decoded as JSON exactly when the header is present and
      contains "application/json" somewhere, whatever else it says. */
  lemma ReadsJsonIff(h: JsText)
    ensures ReadingOf(SelectBranch(HeaderOrEmpty(h))) == AsJson
        <==> h.Str? && exists i :: OccursAt(h.s, "application/json", i)
  {
  }

  /** A reply without a `content-type` header reads as text. */
  lemma MissingHeaderReadsText(body: string, reserialise: string -> Result<string>)
    ensures Gather(Response(Null, body), reserialise) == Ok(body)
    ensures Gather(Response(Undefined, body), reserialise) == Ok(body)
  {
    assert !Includes("", "application/json");
  }
}
