/**
 * The seller's add-product form around the media order: adding and removing
 * media, the effect that re-derives the order when a list changes length,
 * the validation run before the product is posted, the payload built from
 * the form, and what the page does with the server's answer.
 *
 * Stock and price are held as already-parsed numbers (`Number(form.stock)`);
 * an empty field reads as 0.
 */
module ProductForm {
  import opened Wrappers
  import opened Text
  import opened MediaOrder

  datatype Form = Form(
    name: string, category: string, description: string,
    stock: real, price: real,
    images: seq<string>, videos: seq<string>,
    delivery: string)

  /** The page state the media handlers touch. No control on the page turns
      `auto` off, but the manual-mode code paths are modelled all the same. */
  datatype Editor = Editor(form: Form, auto: bool, order: seq<Media>)

  function UrlsOf(f: Form, kind: Kind): seq<string> {
    if kind == Image then f.images else f.videos
  }

  function WithUrls(f: Form, kind: Kind, urls: seq<string>): (g: Form)
    ensures UrlsOf(g, kind) == urls && UrlsOf(g, Flip(kind)) == UrlsOf(f, Flip(kind))
  {
    if kind == Image then f.(images := urls) else f.(videos := urls)
  }

  /** `urls.filter(u => u !== url)` */
  function Without(urls: seq<string>, url: string): (r: seq<string>)
    ensures url !in r
    ensures forall x :: x != url ==> multiset(r)[x] == multiset(urls)[x]
    ensures |r| <= |urls|
    ensures |r| < |urls| <==> url in urls
  {
    if urls == [] then []
    else
      assert urls == [urls[0]] + urls[1..];
      (if urls[0] == url then [] else [urls[0]]) + Without(urls[1..], url)
  }

  /** `addUrl(type, url)`: an empty URL is ignored, any other is appended to its list. */
  function AddUrl(f: Form, kind: Kind, url: string): (g: Form)
    ensures url == "" ==> g == f
    ensures url != "" ==> UrlsOf(g, kind) == UrlsOf(f, kind) + [url]
    ensures UrlsOf(g, Flip(kind)) == UrlsOf(f, Flip(kind))
    ensures g.name == f.name && g.category == f.category && g.description == f.description
    ensures g.stock == f.stock && g.price == f.price && g.delivery == f.delivery
  {
    if url == "" then f else WithUrls(f, kind, UrlsOf(f, kind) + [url])
  }

  /** The effect's dependencies: the number of images, the number of videos
      and the mode. */
  predicate Resized(before: Editor, after: Editor) {
    |before.form.images| != |after.form.images| || |before.form.videos| != |after.form.videos|
    || before.auto != after.auto
  }

  /** The order-deriving effect: it runs after a render in which one of its
      dependencies changed, and is a no-op otherwise. */
  function Settle(before: Editor, after: Editor): (r: Editor)
    ensures r.form == after.form && r.auto == after.auto
    ensures !Resized(before, after) ==> r == after
    ensures Resized(before, after) ==> r.order == SyncOrder(after.auto, after.order, after.form.images, after.form.videos)
    ensures Resized(before, after) ==> multiset(r.order) == multiset(Tag(Image, r.form.images)) + multiset(Tag(Video, r.form.videos))
    ensures Resized(before, after) && r.auto ==> r.order == AutoMerged(r.form.images, r.form.videos)
  {
    if Resized(before, after)
    then after.(order := SyncOrder(after.auto, after.order, after.form.images, after.form.videos))
    else after
  }

  /** In auto mode, adding a URL re-arranges the order once the effect has run. */
  lemma AddUrlAutoSettles(e: Editor, kind: Kind, url: string)
    requires e.auto && url != ""
    ensures var after := e.(form := AddUrl(e.form, kind, url));
            var r := Settle(e, after);
            && r.order == AutoMerged(r.form.images, r.form.videos)
            && url in Urls(r.order, kind)
  {
    var after := e.(form := AddUrl(e.form, kind, url));
    assert |UrlsOf(after.form, kind)| == |UrlsOf(e.form, kind)| + 1;
    AutoMergedSpec(after.form.images, after.form.videos);
    assert UrlsOf(after.form, kind)[|UrlsOf(e.form, kind)|] == url;
  }

  /** `removeAt(idx)`. The URL goes from its list (every copy of it); in auto
      mode the order is recomputed from the form as it was before the removal,
      because the handler reads the state of the render it belongs to; in
      manual mode exactly the entry at `idx` goes. */
  function RemoveAt(e: Editor, idx: int): (r: Editor)
    ensures !(0 <= idx < |e.order|) ==> r == e
    ensures 0 <= idx < |e.order| ==>
      var item := e.order[idx];
      && UrlsOf(r.form, item.kind) == Without(UrlsOf(e.form, item.kind), item.url)
      && UrlsOf(r.form, Flip(item.kind)) == UrlsOf(e.form, Flip(item.kind))
      && r.form == WithUrls(e.form, item.kind, Without(UrlsOf(e.form, item.kind), item.url))
      && r.auto == e.auto
      && (!e.auto ==> r.order == e.order[..idx] + e.order[idx + 1..] && |r.order| == |e.order| - 1)
      && (e.auto ==> r.order == AutoMerged(e.form.images, e.form.videos))
  {
    if !(0 <= idx < |e.order|) then e
    else
      var item := e.order[idx];
      var form := WithUrls(e.form, item.kind, Without(UrlsOf(e.form, item.kind), item.url));
      var order := if e.auto then AutoMerged(e.form.images, e.form.videos)
                   else e.order[..idx] + e.order[idx + 1..];
      Editor(form, e.auto, order)
  }

  /** In auto mode, once the effect has run after a removal, the removed URL is
      gone from the order and the order is the auto-arrangement of the new
      lists. */
  lemma RemoveAtAutoSettles(e: Editor, idx: int)
    requires e.auto && e.order == AutoMerged(e.form.images, e.form.videos)
    requires 0 <= idx < |e.order|
    ensures var r := Settle(e, RemoveAt(e, idx));
            && r.order == AutoMerged(r.form.images, r.form.videos)
            && e.order[idx].url !in Urls(r.order, e.order[idx].kind)
            && |r.order| < |e.order|
  {
    var item := e.order[idx];
    var after := RemoveAt(e, idx);
    RemovedUrlWasListed(e, idx);
    assert |UrlsOf(after.form, item.kind)| < |UrlsOf(e.form, item.kind)|;
    AutoMergedSpec(after.form.images, after.form.videos);
  }

  /** An entry of an auto-arranged order names a URL of its kind's list. */
  lemma RemovedUrlWasListed(e: Editor, idx: int)
    requires e.auto && e.order == AutoMerged(e.form.images, e.form.videos)
    requires 0 <= idx < |e.order|
    ensures e.order[idx].url in UrlsOf(e.form, e.order[idx].kind)
  {
    UrlsContains(e.order, idx);
    AutoMergedSpec(e.form.images, e.form.videos);
  }

  // ---------------------------------------------------------------------------
  // Submission
  // ---------------------------------------------------------------------------

  /** The checks `handleSubmit` throws on, in the order it makes them. */
  datatype SubmitError = LoginRequired | NameRequired | CategoryRequired | StockNotPositive | PriceNotPositive {
    /** The text of the error, which the page shows in an error toast. */
    function Message(): (m: string)
      ensures |m| > 0
    {
      match this
      case LoginRequired => "Login required."
      case NameRequired => "Product name required."
      case CategoryRequired => "Category required."
      case StockNotPositive => "Stock must be positive."
      case PriceNotPositive => "Price must be positive."
    }

    /** Position of the check among the five. */
    function Rank(): nat {
      match this
      case LoginRequired => 0
      case NameRequired => 1
      case CategoryRequired => 2
      case StockNotPositive => 3
      case PriceNotPositive => 4
    }
  }

  /** Whether check number `k` fails; `sellerId` is `seller?._id`. */
  predicate CheckFails(k: nat, sellerId: Option<string>, f: Form) {
    match k
    case 0 => sellerId.None? || sellerId.value == ""
    case 1 => Trim(f.name) == ""
    case 2 => f.category == ""
    case 3 => f.stock <= 0.0
    case 4 => f.price <= 0.0
    case _ => false
  }

  /** The first failing check, if any. */
  function FirstError(sellerId: Option<string>, f: Form): (r: Option<SubmitError>)
    ensures r.None? ==> forall k: nat :: k < 5 ==> !CheckFails(k, sellerId, f)
    ensures r.Some? ==> CheckFails(r.value.Rank(), sellerId, f)
                        && forall k: nat :: k < r.value.Rank() ==> !CheckFails(k, sellerId, f)
  {
    if sellerId.None? || sellerId.value == "" then Some(LoginRequired)
    else if Trim(f.name) == "" then Some(NameRequired)
    else if f.category == "" then Some(CategoryRequired)
    else if f.stock <= 0.0 then Some(StockNotPositive)
    else if f.price <= 0.0 then Some(PriceNotPositive)
    else None
  }

  /** The body of the create-product request. */
  datatype Payload = Payload(
    name: string, category: string, description: string,
    stock: real, price: real,
    image: string, images: seq<string>, videos: seq<string>,
    delivery: string, sellerId: string, mediaOrder: seq<Media>)

  /** A submit either stops at a failed check (no request) or posts a payload. */
  datatype Submission = Rejected(error: SubmitError) | Post(payload: Payload)

  /** `image`: the first image URL if it is non-empty, else the first image of
      the merged order, else the empty string. */
  function CoverImage(images: seq<string>, merged: seq<Media>): (r: string)
    ensures images != [] && images[0] != "" ==> r == images[0]
    ensures r != "" ==> r in images || exists i :: 0 <= i < |merged| && merged[i] == Media(Image, r)
    ensures r == "" ==> images == [] || images[0] == ""
    ensures !(images != [] && images[0] != "") ==>
              r == if Urls(merged, Image) == [] then "" else Urls(merged, Image)[0]
  {
    FirstImageIsFirstUrl(merged);
    if |images| > 0 && images[0] != "" then images[0]
    else FirstImage(merged).GetOr("")
  }

  /** `handleSubmit` up to the request: validation, then the payload. */
  function Submit(sellerId: Option<string>, e: Editor): (r: Submission)
    ensures r.Rejected? <==> FirstError(sellerId, e.form).Some?
    ensures r.Rejected? ==> r.error == FirstError(sellerId, e.form).value
    ensures r.Post? ==> && sellerId.Some? && r.payload.sellerId == sellerId.value != ""
                        && r.payload.name == Trim(e.form.name) != ""
                        && r.payload.stock == e.form.stock > 0.0 && r.payload.price == e.form.price > 0.0
                        && r.payload.images == e.form.images && r.payload.videos == e.form.videos
                        && r.payload.mediaOrder == (if e.auto then AutoMerged(e.form.images, e.form.videos) else e.order)
                        && r.payload.image == CoverImage(e.form.images, r.payload.mediaOrder)
                        && r.payload.category == e.form.category && r.payload.description == e.form.description
                        && r.payload.delivery == e.form.delivery
  {
    match FirstError(sellerId, e.form)
    case Some(err) => Rejected(err)
    case None =>
      var f := e.form;
      assert !CheckFails(0, sellerId, f) && !CheckFails(1, sellerId, f);
      assert !CheckFails(3, sellerId, f) && !CheckFails(4, sellerId, f);
      var merged := if e.auto then AutoMerged(f.images, f.videos) else e.order;
      Post(Payload(Trim(f.name), f.category, f.description, f.stock, f.price,
                   CoverImage(f.images, merged), f.images, f.videos, f.delivery,
                   sellerId.value, merged))
  }

  /** In auto mode the cover image is simply the first image URL, or empty when
      there are no images. */
  lemma CoverImageInAutoMode(sellerId: Option<string>, e: Editor)
    requires e.auto && Submit(sellerId, e).Post?
    ensures Submit(sellerId, e).payload.image == if e.form.images == [] then "" else e.form.images[0]
  {
    var merged := AutoMerged(e.form.images, e.form.videos);
    AutoMergedSpec(e.form.images, e.form.videos);
    FirstImageIsFirstUrl(merged);
    assert Submit(sellerId, e).payload.image == CoverImage(e.form.images, merged);
  }

  /** What the server did with the request: created the product, answered with
      an error status (and perhaps a body `error`), or the request failed. */
  datatype PostReply = Created | Refused(status: int, error: Option<string>) | Failed(reason: string)

  /** What the page shows and does after posting. */
  datatype AfterPost = AfterPost(toast: string, success: bool, next: Option<string>, logout: bool, saving: bool)

  /** The `try`/`catch`/`finally` around the request. An axios failure with a
      response carries the message "Request failed with status code N". */
  function HandleReply(reply: PostReply): (r: AfterPost)
    ensures !r.saving
    ensures r.success <==> reply.Created?
    ensures r.next.Some? <==> reply.Created?
    ensures r.logout <==> reply.Refused? && reply.status == 401
    ensures reply.Created? ==> r.toast == "Product added!" && r.next == Some("/seller/products")
    ensures reply.Refused? && reply.error.Some? && reply.error.value != "" ==> r.toast == reply.error.value
    ensures reply.Refused? && (reply.error.None? || reply.error.value == "") ==>
              r.toast == "Request failed with status code " + IntToString(reply.status)
    ensures reply.Failed? ==> r.toast == (if reply.reason != "" then reply.reason else "Submit failed.")
    ensures |r.toast| > 0
  {
    match reply
    case Created => AfterPost("Product added!", true, Some("/seller/products"), false, false)
    case Refused(status, error) =>
      var text := if error.Some? && error.value != "" then error.value
                  else "Request failed with status code " + IntToString(status);
      AfterPost(text, false, None, status == 401, false)
    case Failed(reason) =>
      AfterPost(if reason != "" then reason else "Submit failed.", false, None, false, false)
  }

  /** Decimal text of an integer, as in a template string. */
  function IntToString(n: int): (s: string)
    ensures |s| >= 1
    decreases if n < 0 then 1 - n else n
  {
    if n < 0 then "-" + IntToString(-n)
    else if n < 10 then [(48 + n) as char]
    else IntToString(n / 10) + [(48 + n % 10) as char]
  }
}
