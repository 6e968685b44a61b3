/**
 * The simple Discord bot's own helpers: splitting a reply for sending,
 * picking image attachments, building the multimodal user content, choosing
 * the model, and the canned local fallback when the upstream call gives
 * nothing.
 */
module Bot {
  import opened Wrappers
  import opened Strings
  import opened Chat
  import opened Chunking

  const DefaultModelFast := "gpt-5-nano"
  const DefaultModelVision := "gpt-5-mini"

  /** The completion ceiling of the bot's single upstream call. */
  const ChatMaxTokens: int := 2896

  /** The default number of image attachments forwarded. */
  const DefaultImageLimit: int := 4

  /**
   * `_chunked_send`: the pieces sent, in order. Unlike the reply pipeline,
   * an empty text sends nothing at all.
   */
  function ChunkedSend(text: string): (r: seq<string>)
    ensures Concat(r) == text
    ensures Bounded(r, DiscordChunk)
    ensures text == "" <==> r == []
  {
    var r := Split(text, DiscordChunk);
    assert Concat([]) == [];
    r
  }

  /** A Discord attachment: its content type and filename may be missing. */
  datatype Attachment = Attachment(contentType: Option<string>, filename: Option<string>, url: string)

  const ImageExtensions: seq<string> := [".png", ".jpg", ".jpeg", ".webp", ".gif"]

  /** An image by content type or, failing that, by file extension (both lower-cased). */
  predicate IsImage(a: Attachment) {
    || StartsWith(Lower(a.contentType.GetOr("")), "image/")
    || exists k :: 0 <= k < |ImageExtensions| && EndsWith(Lower(a.filename.GetOr("")), ImageExtensions[k])
  }

  /** The URLs of all image attachments, in attachment order. */
  function ImageUrls(atts: seq<Attachment>): (r: seq<string>)
    ensures |r| <= |atts|
    decreases |atts|
  {
    if |atts| == 0 then []
    else
      var last := atts[|atts| - 1];
      ImageUrls(atts[..|atts| - 1]) + (if IsImage(last) then [last.url] else [])
  }

  /** Every URL listed belongs to an image attachment. */
  lemma {:induction false} ImageUrlsSound(atts: seq<Attachment>, u: string)
    requires u in ImageUrls(atts)
    ensures exists i :: 0 <= i < |atts| && IsImage(atts[i]) && atts[i].url == u
    decreases |atts|
  {
    var init := atts[..|atts| - 1];
    var last := atts[|atts| - 1];
    if u in ImageUrls(init) {
      ImageUrlsSound(init, u);
      var i :| 0 <= i < |init| && IsImage(init[i]) && init[i].url == u;
      assert atts[i] == init[i];
    } else {
      assert IsImage(last) && last.url == u;
    }
  }

  /** Every image attachment's URL is listed. */
  lemma {:induction false} ImageUrlsComplete(atts: seq<Attachment>, i: nat)
    requires i < |atts| && IsImage(atts[i])
    ensures atts[i].url in ImageUrls(atts)
    decreases |atts|
  {
    if i < |atts| - 1 {
      var init := atts[..|atts| - 1];
      assert init[i] == atts[i];
      ImageUrlsComplete(init, i);
    }
  }

  /** The image URLs of a prefix of the attachments are a prefix of all of them. */
  lemma {:induction false} ImageUrlsPrefix(atts: seq<Attachment>, j: nat)
    requires j <= |atts|
    ensures |ImageUrls(atts[..j])| <= |ImageUrls(atts)|
    ensures ImageUrls(atts[..j]) == ImageUrls(atts)[..|ImageUrls(atts[..j])|]
    decreases |atts|
  {
    if j < |atts| {
      var init := atts[..|atts| - 1];
      assert init[..j] == atts[..j];
      ImageUrlsPrefix(init, j);
    } else {
      assert atts[..j] == atts;
    }
  }

  /** The first `k` elements, or all of them when there are fewer. */
  function Take(s: seq<string>, k: nat): (r: seq<string>)
    ensures |r| <= k && |r| <= |s|
    ensures r == s[..|r|]
    ensures |s| <= k ==> r == s
  {
    if |s| <= k then s else s[..k]
  }

  /**
   * `_pick_image_urls`: the image URLs in attachment order, stopping once
   * `limit` are collected. The check follows the append, so a `limit` below
   * one still lets the first image through.
   */
  method PickImageUrls(atts: seq<Attachment>, limit: int) returns (urls: seq<string>)
    ensures urls == Take(ImageUrls(atts), if limit >= 1 then limit else 1)
    ensures limit >= 1 ==> |urls| <= limit
    ensures |atts| == 0 ==> urls == []
  {
    urls := [];
    if |atts| == 0 {
      return;
    }
    var cap: nat := if limit >= 1 then limit else 1;
    var i := 0;
    while i < |atts|
      invariant 0 <= i <= |atts|
      invariant urls == ImageUrls(atts[..i])
      invariant |urls| < cap
    {
      var a := atts[i];
      ImageUrlsStep(atts, i);
      if IsImage(a) {
        urls := urls + [a.url];
        if |urls| >= cap {
          ImageUrlsPrefix(atts, i + 1);
          TakeAtCap(ImageUrls(atts), urls, cap);
          return;
        }
      }
      i := i + 1;
    }
    assert atts[..i] == atts;
  }

  /** The image URLs grow by at most the next attachment's. */
  lemma ImageUrlsStep(atts: seq<Attachment>, i: nat)
    requires i < |atts|
    ensures ImageUrls(atts[..i + 1]) == ImageUrls(atts[..i]) + (if IsImage(atts[i]) then [atts[i].url] else [])
  {
    assert atts[..i + 1][..i] == atts[..i];
  }

  /** A list of exactly `cap` leading URLs is what taking `cap` of them gives. */
  lemma TakeAtCap(all: seq<string>, urls: seq<string>, cap: nat)
    requires |urls| == cap && |urls| <= |all| && urls == all[..|urls|]
    ensures Take(all, cap) == urls
  {
  }

  /** `MODEL_VISION if image_urls else MODEL_FAST`. */
  function ChatModel(imageUrls: seq<string>, fast: string, vision: string): (r: string)
    ensures r == fast || r == vision
    ensures fast != vision ==> (r == vision <==> |imageUrls| > 0)
  {
    if |imageUrls| > 0 then vision else fast
  }

  /**
   * The user turn of `_chat_complete`: a text part when there is text, then
   * one image part per URL, in order; with neither, the persona text alone.
   */
  function UserContent(userText: string, imageUrls: seq<string>, persona: string): (r: seq<Part>)
    ensures |r| >= 1
    ensures userText == "" && |imageUrls| == 0 ==> r == [TextPart(persona)]
  {
    var text := if userText != "" then [TextPart(userText)] else [];
    var images := seq(|imageUrls|, i requires 0 <= i < |imageUrls| => ImagePart(imageUrls[i]));
    if |text + images| == 0 then [TextPart(persona)] else text + images
  }

  /** The URLs of the image parts, in order. */
  function UrlsOf(parts: seq<Part>): seq<string>
    decreases |parts|
  {
    if |parts| == 0 then []
    else (if parts[0].ImagePart? then [parts[0].url] else []) + UrlsOf(parts[1..])
  }

  /** The text of a leading text part, or "". */
  function TextOf(parts: seq<Part>): string {
    if |parts| > 0 && parts[0].TextPart? then parts[0].text else ""
  }

  /** Image parts built from URLs give the URLs back, in order. */
  lemma {:induction false} UrlsOfImages(urls: seq<string>)
    ensures UrlsOf(seq(|urls|, i requires 0 <= i < |urls| => ImagePart(urls[i]))) == urls
    decreases |urls|
  {
    var parts := seq(|urls|, i requires 0 <= i < |urls| => ImagePart(urls[i]));
    if |urls| > 0 {
      assert parts[1..] == seq(|urls[1..]|, i requires 0 <= i < |urls[1..]| => ImagePart(urls[1..][i]));
      UrlsOfImages(urls[1..]);
      assert urls == [urls[0]] + urls[1..];
    }
  }

  /**
   * Nothing is lost in building the user content: whenever there is text or
   * an image, the text and the URLs can be read back from it.
   */
  lemma UserContentRoundTrip(userText: string, imageUrls: seq<string>, persona: string)
    requires userText != "" || |imageUrls| > 0
    ensures TextOf(UserContent(userText, imageUrls, persona)) == userText
    ensures UrlsOf(UserContent(userText, imageUrls, persona)) == imageUrls
    ensures |UserContent(userText, imageUrls, persona)| == (if userText != "" then 1 else 0) + |imageUrls|
  {
    var images := seq(|imageUrls|, i requires 0 <= i < |imageUrls| => ImagePart(imageUrls[i]));
    UrlsOfImages(imageUrls);
    var r := UserContent(userText, imageUrls, persona);
    if userText != "" {
      assert r == [TextPart(userText)] + images;
      assert r[1..] == images;
    } else {
      assert r == images;
    }
  }

  /** The fallback replies, in priority order. */
  const BusyReply := "……別に、何もしてないけど。さっき動画見て時間溶かした。"
  const DogReply := "犬は好き。静かに寄ってくるやつは特に。"
  const CatReply := "猫は無理。近づかないでほしい。"
  const DefaultReply := "……ふーん、そう。別に大したことじゃないけど。"

  /** The text asks what the bot is doing. */
  predicate AsksWhatDoing(t: string) {
    Contains(t, "なにしてる") || Contains(t, "何してる")
  }

  /**
   * `_local_fallback`: the first keyword group found in the stripped text
   * decides the reply, whatever the keywords' positions in the text.
   */
  function LocalFallback(userText: string): (r: string)
    ensures r != ""
    ensures r == BusyReply <==> AsksWhatDoing(Trim(userText))
    ensures r == DogReply <==> !AsksWhatDoing(Trim(userText)) && Contains(Trim(userText), "犬")
    ensures r == CatReply <==> !AsksWhatDoing(Trim(userText)) && !Contains(Trim(userText), "犬")
                               && Contains(Trim(userText), "猫")
    ensures r == DefaultReply <==> !AsksWhatDoing(Trim(userText)) && !Contains(Trim(userText), "犬")
                                   && !Contains(Trim(userText), "猫")
  {
    var ut := Trim(userText);
    if AsksWhatDoing(ut) then BusyReply
    else if Contains(ut, "犬") then DogReply
    else if Contains(ut, "猫") then CatReply
    else DefaultReply
  }

  /** A mention of a dog wins over a cat, even when the cat comes first. */
  lemma DogBeforeCat()
    ensures LocalFallback("猫と犬") == DogReply
  {
    DogBeforeCatGuards("猫と犬");
  }

  /** The facts about "猫と犬" that decide which fallback rule it reaches: already stripped, mentions 犬, no "what are you doing". */
  lemma DogBeforeCatGuards(t: string)
    requires t == "猫と犬"
    ensures Trim(t) == t
    ensures Contains(t, "犬") && !AsksWhatDoing(t)
  {
    TrimUnpadded(t);
    assert OccursAt(t, "犬", 2);
  }

  /**
   * `_chat_complete`: the request sent, and the reply: the stripped first
   * choice when it has text, otherwise (an empty answer, no choices, or any
   * exception) the local fallback.
   */
  function ChatComplete(userText: string, imageUrls: seq<string>, persona: string, fast: string,
                        vision: string, outcome: Outcome): (r: (Request, string))
    ensures r.0.model == ChatModel(imageUrls, fast, vision)
    ensures r.0.messages == [Message(System, Text(persona)), Message(User, Parts(UserContent(userText, imageUrls, persona)))]
    ensures r.0.maxCompletionTokens == ChatMaxTokens && !r.0.forceText && r.0.sampling == NoSampling
    ensures r.1 != ""
    ensures r.1 == LocalFallback(userText) || (outcome.Answered? && |outcome.response.choices| > 0
              && r.1 == Trim(outcome.response.choices[0].content.GetOr("")))
    ensures outcome.Raised? ==> r.1 == LocalFallback(userText)
    ensures outcome.Answered? && |outcome.response.choices| > 0 ==>
              Trim(outcome.response.choices[0].content.GetOr("")) != ""
              ==> r.1 == Trim(outcome.response.choices[0].content.GetOr(""))
    ensures outcome.Answered? ==>
              (|outcome.response.choices| == 0 || Trim(outcome.response.choices[0].content.GetOr("")) == "")
              ==> r.1 == LocalFallback(userText)
  {
    var request := Request(ChatModel(imageUrls, fast, vision),
                           [Message(System, Text(persona)), Message(User, Parts(UserContent(userText, imageUrls, persona)))],
                           ChatMaxTokens, false, NoSampling);
    var reply :=
      match outcome
      case Raised(_) => LocalFallback(userText)
      case Answered(resp) =>
        if |resp.choices| == 0 then LocalFallback(userText)
        else
          var msg := Trim(resp.choices[0].content.GetOr(""));
          if msg != "" then msg else LocalFallback(userText);
    (request, reply)
  }
}
