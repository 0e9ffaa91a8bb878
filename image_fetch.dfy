/**
 * The download of the generated image with its one Turbo fallback
 * (ai_generator.py, lines 91-132).
 *
 * The network and the file system are not modelled: what each request
 * returned, the uuid drawn for the file name and whether writing the file
 * completed are parameters.
 */
module ImageFetch {
  import opened Wrappers
  import opened Strings
  import opened ImageRequest

  /** The part of an HTTP response the code looks at. */
  datatype Response = Response(status: int, contentType: Option<string>)

  /** What one `requests.get` call did: it raised, or it returned a response. */
  datatype Attempt = Raised | Answered(response: Response)

  /** `status_code == 200 and "image" in headers.get("Content-Type", "")`. */
  predicate Accepts(r: Response) {
    r.status == 200 && Contains(r.contentType.GetOr(""), "image")
  }

  /** The request returned a response that was accepted. */
  predicate Accepted(a: Attempt) {
    a.Answered? && Accepts(a.response)
  }

  /** The request returned a response that was turned down; it did not raise. */
  predicate Rejected(a: Attempt) {
    a.Answered? && !Accepts(a.response)
  }

  const UploadsBase := "http://localhost:8000/uploads/"

  /** `f"ai_gen_{uuid.uuid4()}.png"`. */
  function FileName(id: string): string {
    "ai_gen_" + id + ".png"
  }

  /** The address a saved image is served from. */
  function UploadUrl(id: string): string {
    UploadsBase + FileName(id)
  }

  /** Different uuids give different addresses, and no address is empty. */
  lemma {:induction false} UploadUrlInjective(a: string, b: string)
    ensures UploadUrl(a) != ""
    ensures UploadUrl(a) == UploadUrl(b) ==> a == b
  {
    var n := |UploadsBase| + 7;
    if UploadUrl(a) == UploadUrl(b) {
      assert |a| == |b|;
      assert UploadUrl(a)[n..n + |a|] == a;
      assert UploadUrl(b)[n..n + |b|] == b;
    }
  }

  /** A response without a Content-Type header is never accepted. */
  lemma {:induction false} MissingContentType(status: int)
    ensures !Accepts(Response(status, None))
  {
    ContainsNot("", "image");
  }

  /**
   * The inner `try` of lines 91-132: request `url`, save the image when the
   * response is accepted, and otherwise retry once with the Turbo URL.
   * `first` and `second` are what the two requests do, `id` is the uuid
   * drawn for the file name and `saved` says whether writing the file
   * completed; an exception from either request or from the write ends the
   * block with an empty `imageUrl`.
   */
  method FetchImage(url: string, first: Attempt, second: Attempt, id: string, saved: bool)
    returns (imageUrl: string, requested: seq<string>)
    ensures 1 <= |requested| <= 2 && requested[0] == url
    ensures |requested| == 2 <==> Rejected(first) && Contains(url, Flux)
    ensures |requested| == 2 ==> requested[1] == RetryUrl(url)
    ensures imageUrl == "" || imageUrl == UploadUrl(id)
    ensures imageUrl != "" <==> saved && (Accepted(first) || (|requested| == 2 && Accepted(second)))
  {
    requested := [url];
    match first
    case Raised =>
      imageUrl := "";
    case Answered(response) =>
      if Accepts(response) {
        imageUrl := if saved then UploadUrl(id) else "";
      } else if Contains(url, Flux) {
        var retryUrl := RetryUrl(url);
        requested := requested + [retryUrl];
        match second
        case Raised =>
          imageUrl := "";
        case Answered(retryResponse) =>
          if Accepts(retryResponse) {
            imageUrl := if saved then UploadUrl(id) else "";
          } else {
            imageUrl := "";
          }
      } else {
        imageUrl := "";
      }
  }
}
