/**
 * Image selection of api/rss.js (`toAbs`, `firstImgFromHtml`, `pickImageFromItem`).
 * `PickImage` follows the source's branches; `Candidates` lists the five tiers
 * independently, and the lemmas show that the chosen image is the resolution
 * of the first tier that offers a candidate, with no fall-through when that
 * resolution fails.
 */
module Image {
  import opened Wrappers
  import opened Truthiness
  import opened FeedItems

  /** `toAbs(url, base)`: a falsy URL gives `null`, otherwise the URL resolved against `base` */
  function ToAbs(env: Env, url: Option<string>, base: string): (r: Option<string>)
    ensures !Truthy(url) ==> r == None
    ensures r.Some? ==> Truthy(url) && r == env.resolveUrl(url.value, base)
  {
    if !Truthy(url) then None else env.resolveUrl(url.value, base)
  }

  /** `firstImgFromHtml(html)` */
  function FirstImgFromHtml(env: Env, html: Option<string>): (r: Option<string>)
    ensures !Truthy(html) ==> r == None
  {
    if !Truthy(html) then None else env.matchImg(html.value)
  }

  /** `pickImageFromItem(it, baseUrl)`, branch for branch */
  function PickImage(env: Env, it: RawItem, base: string): (r: Option<string>)
    ensures r.Some? ==> exists u :: u != "" && r == env.resolveUrl(u, base)
  {
    var tn := it.thumbnail;
    if tn.ThumbnailText? && tn.text != "" then ToAbs(env, Some(tn.text), base)
    else if tn.ThumbnailObject? && Truthy(tn.url) then ToAbs(env, tn.url, base)
    else
      var mc := it.mediaContent;
      if mc.MediaArray? && |mc.elems| > 0 && Truthy(mc.elems[0].url) then ToAbs(env, mc.elems[0].url, base)
      else if mc.MediaObject? && Truthy(mc.attrs.url) then ToAbs(env, mc.attrs.url, base)
      else
        var htmlImg := Or(FirstImgFromHtml(env, it.contentEncoded), FirstImgFromHtml(env, it.content));
        if Truthy(htmlImg) then ToAbs(env, htmlImg, base) else None
  }

  /** The candidate of the media-content tier: the first array element's `$.url`, or the object's `$.url` */
  function MediaContentUrl(mc: MediaContent): Option<string> {
    match mc
    case NoMediaContent => None
    case MediaArray(elems) => if |elems| > 0 then elems[0].url else None
    case MediaObject(attrs) => attrs.url
  }

  /** The five tiers in precedence order, each the URL it would offer (falsy when it offers none):
      a string thumbnail, a thumbnail object's `url`, the media content's `$.url`, the first
      `<img>` of `content:encoded`, the first `<img>` of `content`. */
  function Candidates(env: Env, it: RawItem): (c: seq<Option<string>>)
    ensures |c| == 5
  {
    [ if it.thumbnail.ThumbnailText? then Some(it.thumbnail.text) else None,
      if it.thumbnail.ThumbnailObject? then it.thumbnail.url else None,
      MediaContentUrl(it.mediaContent),
      FirstImgFromHtml(env, it.contentEncoded),
      FirstImgFromHtml(env, it.content) ]
  }

  /** The image is the resolution of the first tier with a candidate, and `null` when no tier has one. */
  lemma PickImageIsFirstCandidate(env: Env, it: RawItem, base: string)
    ensures var c := Candidates(env, it);
            var i := FirstTruthyIndex(c);
            PickImage(env, it, base) == if i < |c| then env.resolveUrl(c[i].value, base) else None
  {
    var c := Candidates(env, it);
    var i := FirstTruthyIndex(c);
    var enc, con := FirstImgFromHtml(env, it.contentEncoded), FirstImgFromHtml(env, it.content);
    assert c[3] == enc && c[4] == con;
    if i == 0 {
      assert Truthy(c[0]);
    } else if i == 1 {
      assert !Truthy(c[0]) && Truthy(c[1]);
    } else if i == 2 {
      assert !Truthy(c[0]) && !Truthy(c[1]) && Truthy(c[2]);
    } else if i == 3 {
      assert !Truthy(c[0]) && !Truthy(c[1]) && !Truthy(c[2]) && Truthy(enc);
    } else if i == 4 {
      assert !Truthy(c[0]) && !Truthy(c[1]) && !Truthy(c[2]) && !Truthy(enc) && Truthy(con);
    } else {
      assert !Truthy(c[0]) && !Truthy(c[1]) && !Truthy(c[2]) && !Truthy(enc) && !Truthy(con);
    }
  }

  /** No fall-through: once a tier offers a candidate, a failed resolution yields `null`
      whatever the later tiers hold. */
  lemma NoFallThrough(env: Env, it: RawItem, base: string, k: nat)
    requires k < 5 && Truthy(Candidates(env, it)[k])
    requires forall j :: 0 <= j < k ==> !Truthy(Candidates(env, it)[j])
    ensures PickImage(env, it, base) == env.resolveUrl(Candidates(env, it)[k].value, base)
  {
    PickImageIsFirstCandidate(env, it, base);
  }

  /** An item with a thumbnail that does not resolve and a media array that would have
      resolved still gets no image. */
  lemma NoFallThroughExample()
    ensures var env := Env((u: string, b: string) => if u == ":" then None else Some(b + u),
                           (h: string) => None, (s: string) => None, (t: int) => "", 0);
            var it := RawItem(None, None, None, None, None, None, None, None, None, None,
                              ThumbnailText(":"), MediaArray([MediaAttrs(Some("a.jpg"))]));
            PickImage(env, it, "https://example.com/") == None
  {
  }
}
