/**
 * Document assembly of api/rss.js: the channel header, one `<item>` per entry
 * with every text field escaped, the media tags when an image exists, and the
 * closing tags. `ParseDocument` reads such a document back; the round-trip
 * lemma shows that the document holds exactly the items, in order, with their
 * text intact and one identical image URL in both media tags.
 */
module Render {
  import opened Wrappers
  import opened Truthiness
  import opened FeedItems
  import opened XmlEscape

  const XmlDeclaration: string := "<?xml version=\"1.0\" encoding=\"utf-8\"?>"
  const RssOpen: string := "<rss version=\"2.0\" xmlns:media=\"http://search.yahoo.com/mrss/\">"
  const ChannelTitle: string := "CURA"
  const ChannelLink: string := "https://curaforthegamer.com/"
  const ChannelDescription: string := "Curating for gamers. The useful, the interesting, the worthwhile."
  const GeneratorAndLanguage: string := "<generator>CURA unified feed</generator><language>en</language>"
  const Footer: string := "</channel></rss>"
  const ItemOpen: string := "<item>"
  const ItemClose: string := "</item>"
  const MediaContentOpen: string := "<media:content url=\""
  const MediaContentClose: string := "\" medium=\"image\"/>"
  const MediaThumbnailOpen: string := "<media:thumbnail url=\""
  const MediaThumbnailClose: string := "\"/>"

  function Open(tag: string): string { "<" + tag + ">" }

  function Close(tag: string): string { "</" + tag + ">" }

  /** `<tag>${xmlEscape(text)}</tag>` */
  function TextElement(tag: string, text: string): string {
    Open(tag) + Escape(text) + Close(tag)
  }

  /** The texts the channel header describes the feed with */
  datatype Channel = Channel(title: string, link: string, description: string)

  /** The channel the handler publishes */
  const Cura: Channel := Channel(ChannelTitle, ChannelLink, ChannelDescription)

  /** The channel header up to the content of `<lastBuildDate>` */
  function ChannelHead(ch: Channel): string {
    XmlDeclaration + ChannelOpen(ch)
  }

  /** The header after the XML declaration */
  function ChannelOpen(ch: Channel): string {
    RssOpen + "<channel>"
    + TextElement("title", ch.title)
    + TextElement("link", ch.link)
    + TextElement("description", ch.description)
    + Open("lastBuildDate")
  }

  /** The channel header after the content of `<lastBuildDate>` */
  function ChannelTail(): string {
    Close("lastBuildDate") + GeneratorAndLanguage
  }

  /** `items[0] ? items[0].pubDate : new Date().toUTCString()`, inserted without escaping */
  function LastBuildDate(env: Env, items: seq<Item>): (r: string)
    ensures |items| > 0 ==> r == items[0].pubDate
    ensures |items| == 0 ==> r == env.formatDate(env.now)
  {
    if |items| > 0 then items[0].pubDate else env.formatDate(env.now)
  }

  /** The media tags of one item: present only for a truthy image, both with the same escaped URL */
  function MediaXml(image: Option<string>): (r: string)
    ensures r == "" <==> !Truthy(image)
    ensures Truthy(image) ==> StartsWith(r, MediaContentOpen)
  {
    if Truthy(image) then
      var img := Escape(image.value);
      MediaContentOpen + img + MediaContentClose + MediaThumbnailOpen + img + MediaThumbnailClose
    else ""
  }

  /** One `<item>`: title, link, guid, description and pubDate escaped, in that order, then the media tags */
  function ItemXml(it: Item): (r: string)
    ensures StartsWith(r, ItemOpen)
    ensures |r| >= |ItemClose| && r[|r| - |ItemClose|..] == ItemClose
  {
    var title, link, guid := TextElement("title", it.title), TextElement("link", it.link), TextElement("guid", it.guid);
    var description, pubDate := TextElement("description", it.description), TextElement("pubDate", it.pubDate);
    Framed(ItemOpen, title + link, guid + description, pubDate, MediaXml(it.image), ItemClose);
    ItemOpen + (title + link) + (guid + description) + pubDate + MediaXml(it.image) + ItemClose
  }

  /** The `for (const it of items)` loop */
  function ItemsXml(items: seq<Item>): string
    decreases |items|
  {
    if |items| == 0 then "" else ItemXml(items[0]) + ItemsXml(items[1..])
  }

  /** The whole document */
  function Document(env: Env, ch: Channel, items: seq<Item>): (doc: string)
    ensures StartsWith(doc, XmlDeclaration)
    ensures |doc| >= |Footer| && doc[|doc| - |Footer|..] == Footer
  {
    var doc := ChannelHead(ch) + LastBuildDate(env, items) + ChannelTail() + ItemsXml(items) + Footer;
    Framed(XmlDeclaration, ChannelOpen(ch), LastBuildDate(env, items), ChannelTail(), ItemsXml(items), Footer);
    doc
  }

  /** A text made of a head, some middle parts and a foot starts with the head and ends with the foot. */
  lemma Framed(head: string, a: string, b: string, c: string, d: string, foot: string)
    ensures var t := (head + a) + b + c + d + foot;
            StartsWith(t, head) && |t| >= |foot| && t[|t| - |foot|..] == foot
  {
    var t := (head + a) + b + c + d + foot;
    assert t == head + (a + b + c + d + foot);
    assert t[..|head|] == head;
  }

  // ---------- reading a document back ----------

  /** The parsed document: the `lastBuildDate` text and the items */
  datatype Parsed = Parsed(lastBuildDate: string, items: seq<Item>)

  /** The rest of `s` after the literal `lit`, if `s` starts with it */
  function Expect(lit: string, s: string): (r: Option<string>)
    ensures r.Some? <==> StartsWith(s, lit)
    ensures r.Some? ==> s == lit + r.value
  {
    if StartsWith(s, lit) then
      assert s == s[..|lit|] + s[|lit|..];
      Some(s[|lit|..])
    else None
  }

  /** Splits `s` before the first `stop` */
  function Span(s: string, stop: char): (r: (string, string))
    ensures r.0 + r.1 == s
    ensures stop !in r.0
    ensures r.1 == [] || r.1[0] == stop
    decreases |s|
  {
    if |s| == 0 || s[0] == stop then ("", s)
    else
      var p := Span(s[1..], stop);
      assert [s[0]] + p.0 + p.1 == [s[0]] + (p.0 + p.1);
      assert s == [s[0]] + s[1..];
      ([s[0]] + p.0, p.1)
  }

  /** `<tag>text</tag>` followed by more: the unescaped text and the rest */
  function ParseText(tag: string, s: string): (r: Option<(string, string)>)
    ensures r.Some? ==> |r.value.1| < |s|
  {
    var s1 :- Expect(Open(tag), s);
    var p := Span(s1, '<');
    var s2 :- Expect(Close(tag), p.1);
    Some((Unescape(p.0), s2))
  }

  /** The optional media tags: no image when they are absent; both must carry the same URL */
  function ParseMedia(s: string): (r: Option<(Option<string>, string)>)
    ensures r.Some? ==> |r.value.1| <= |s|
  {
    match Expect(MediaContentOpen, s)
    case None => Some((None, s))
    case Some(s1) =>
      var p := Span(s1, '"');
      var s2 :- Expect(MediaContentClose, p.1);
      var s3 :- Expect(MediaThumbnailOpen, s2);
      var q := Span(s3, '"');
      var s4 :- Expect(MediaThumbnailClose, q.1);
      if p.0 == q.0 then Some((Some(Unescape(p.0)), s4)) else None
  }

  /** One `<item>` followed by more */
  function ParseItem(s: string): (r: Option<(Item, string)>)
    ensures r.Some? ==> |r.value.1| < |s|
  {
    var s0 :- Expect(ItemOpen, s);
    var title :- ParseText("title", s0);
    var link :- ParseText("link", title.1);
    var guid :- ParseText("guid", link.1);
    var description :- ParseText("description", guid.1);
    var pubDate :- ParseText("pubDate", description.1);
    var media :- ParseMedia(pubDate.1);
    var s1 :- Expect(ItemClose, media.1);
    Some((Item(title.0, link.0, guid.0, description.0, pubDate.0, media.0), s1))
  }

  /** The items and the closing tags */
  function ParseItems(s: string): Option<seq<Item>>
    decreases |s|
  {
    if StartsWith(s, ItemOpen) then
      var first :- ParseItem(s);
      var more :- ParseItems(first.1);
      Some([first.0] + more)
    else if s == Footer then Some([])
    else None
  }

  function ParseDocument(ch: Channel, doc: string): Option<Parsed> {
    var s1 :- Expect(ChannelHead(ch), doc);
    var p := Span(s1, '<');
    var s2 :- Expect(ChannelTail(), p.1);
    var items :- ParseItems(s2);
    Some(Parsed(p.0, items))
  }

  // ---------- the round trip ----------

  /** An item as the document shows it: its image only when the media tags were emitted */
  function Emitted(it: Item): Item {
    it.(image := EmittedImage(it.image))
  }

  lemma ExpectLiteral(lit: string, rest: string)
    ensures Expect(lit, lit + rest) == Some(rest)
  {
    assert (lit + rest)[..|lit|] == lit;
    assert (lit + rest)[|lit|..] == rest;
  }

  /** Span stops exactly at the first `stop`. */
  lemma {:induction false} SpanUpTo(e: string, stop: char, rest: string)
    requires stop !in e && |rest| > 0 && rest[0] == stop
    ensures Span(e + rest, stop) == (e, rest)
    decreases |e|
  {
    if |e| == 0 {
      assert e + rest == rest;
    } else {
      assert (e + rest)[1..] == e[1..] + rest;
      SpanUpTo(e[1..], stop, rest);
      assert e == [e[0]] + e[1..];
    }
  }

  lemma Reassociate(a: string, b: string, c: string, d: string, e: string, f: string, g: string, h: string, rest: string)
    ensures a + (b + c) + (d + e) + f + g + h + rest == a + (b + (c + (d + (e + (f + (g + (h + rest)))))))
  {
  }

  lemma Reassociate4(a: string, b: string, c: string, d: string, e: string)
    ensures a + b + c + d + e == a + (b + (c + (d + e)))
  {
  }

  /** An escaped text element reads back as the original text. */
  lemma TextRoundTrip(tag: string, v: string, rest: string)
    ensures ParseText(tag, TextElement(tag, v) + rest) == Some((v, rest))
  {
    var e := Escape(v);
    var tail := Close(tag) + rest;
    assert TextElement(tag, v) + rest == Open(tag) + (e + tail);
    ExpectLiteral(Open(tag), e + tail);
    SpanUpTo(e, '<', tail);
    ExpectLiteral(Close(tag), rest);
    EscapeRoundTrip(v);
  }

  lemma Reassociate6(a: string, b: string, c: string, d: string, e: string, f: string, rest: string)
    ensures a + b + c + d + e + f + rest == a + (b + (c + (d + (e + (f + rest)))))
  {
  }

  /** The media tags read back as the image both carry. */
  lemma MediaPresentRoundTrip(image: string, rest: string)
    requires image != ""
    ensures ParseMedia(MediaXml(Some(image)) + rest) == Some((Some(image), rest))
  {
    var img := Escape(image);
    var r4 := MediaThumbnailClose + rest;
    var r3 := img + r4;
    var r2 := MediaThumbnailOpen + r3;
    var r1 := MediaContentClose + r2;
    var r0 := img + r1;
    Reassociate6(MediaContentOpen, img, MediaContentClose, MediaThumbnailOpen, img, MediaThumbnailClose, rest);
    ExpectLiteral(MediaContentOpen, r0);
    SpanUpTo(img, '"', r1);
    ExpectLiteral(MediaContentClose, r2);
    ExpectLiteral(MediaThumbnailOpen, r3);
    SpanUpTo(img, '"', r4);
    ExpectLiteral(MediaThumbnailClose, rest);
    EscapeRoundTrip(image);
  }

  /** Without media tags, the item's closing tag reads back as no image. */
  lemma MediaAbsentRoundTrip(tail: string)
    ensures ParseMedia(ItemClose + tail) == Some((None, ItemClose + tail))
  {
    var rest := ItemClose + tail;
    assert rest[1] == '/';
  }

  function EmittedImage(image: Option<string>): Option<string> {
    if Truthy(image) then image else None
  }

  /** The media tags read back as the emitted image, and their absence as no image. */
  lemma MediaRoundTrip(image: Option<string>, tail: string)
    ensures ParseMedia(MediaXml(image) + (ItemClose + tail)) == Some((EmittedImage(image), ItemClose + tail))
  {
    if Truthy(image) {
      MediaPresentRoundTrip(image.value, ItemClose + tail);
    } else {
      assert MediaXml(image) + (ItemClose + tail) == ItemClose + tail;
      MediaAbsentRoundTrip(tail);
    }
  }

  /** An item reads back field by field, in order, with the emitted image. */
  lemma ItemRoundTrip(it: Item, rest: string)
    ensures ParseItem(ItemXml(it) + rest) == Some((Emitted(it), rest))
  {
    var t1, t2, t3 := TextElement("title", it.title), TextElement("link", it.link), TextElement("guid", it.guid);
    var t4, t5 := TextElement("description", it.description), TextElement("pubDate", it.pubDate);
    var m := MediaXml(it.image);
    Reassociate(ItemOpen, t1, t2, t3, t4, t5, m, ItemClose, rest);
    var r7 := ItemClose + rest;
    var r6 := m + r7;
    var r5 := t5 + r6;
    var r4 := t4 + r5;
    var r3 := t3 + r4;
    var r2 := t2 + r3;
    var r1 := t1 + r2;
    ExpectLiteral(ItemOpen, r1);
    TextRoundTrip("title", it.title, r2);
    TextRoundTrip("link", it.link, r3);
    TextRoundTrip("guid", it.guid, r4);
    TextRoundTrip("description", it.description, r5);
    TextRoundTrip("pubDate", it.pubDate, r6);
    MediaRoundTrip(it.image, rest);
    ExpectLiteral(ItemClose, rest);
  }

  /** One emitted item is read back, and parsing carries on with what follows it. */
  lemma ItemsStep(it: Item, rest: string)
    ensures ParseItems(ItemXml(it) + rest)
         == (match ParseItems(rest) case None => None case Some(more) => Some([Emitted(it)] + more))
  {
    var s := ItemXml(it) + rest;
    ItemRoundTrip(it, rest);
    StartsWithAppend(ItemOpen, ItemXml(it), rest);
  }

  /** The closing tags end the item list. */
  lemma FooterEndsItems()
    ensures ParseItems(Footer) == Some([])
  {
    assert Footer[1] == '/';
  }

  /** The items as the document shows them */
  function EmittedAll(items: seq<Item>): (r: seq<Item>)
    ensures |r| == |items|
    ensures forall i :: 0 <= i < |items| ==> r[i] == Emitted(items[i])
  {
    if |items| == 0 then [] else [Emitted(items[0])] + EmittedAll(items[1..])
  }

  /** Items followed by any text that ends the list read back one for one, in order. */
  lemma {:induction false} ItemsThen(items: seq<Item>, tail: string)
    requires ParseItems(tail) == Some([])
    ensures ParseItems(ItemsXml(items) + tail) == Some(EmittedAll(items))
    decreases |items|
  {
    if |items| == 0 {
      assert ItemsXml(items) + tail == tail;
    } else {
      var rest := ItemsXml(items[1..]) + tail;
      ItemsXmlCons(items, tail);
      ItemsStep(items[0], rest);
      ItemsThen(items[1..], tail);
      assert EmittedAll(items) == [Emitted(items[0])] + EmittedAll(items[1..]);
    }
  }

  lemma ItemsXmlCons(items: seq<Item>, tail: string)
    requires |items| > 0
    ensures ItemsXml(items) + tail == ItemXml(items[0]) + (ItemsXml(items[1..]) + tail)
  {
    var a, b := ItemXml(items[0]), ItemsXml(items[1..]);
    assert ItemsXml(items) == a + b;
    Assoc(a, b, tail);
  }

  lemma Assoc(a: string, b: string, c: string)
    ensures (a + b) + c == a + (b + c)
  {
  }

  /** The items read back one for one, in order. */
  lemma ItemsRoundTrip(items: seq<Item>)
    ensures var r := ParseItems(ItemsXml(items) + Footer);
            && r == Some(EmittedAll(items))
            && |r.value| == |items|
            && forall i :: 0 <= i < |items| ==> r.value[i] == Emitted(items[i])
  {
    FooterEndsItems();
    ItemsThen(items, Footer);
  }

  /** The document reads back as its `lastBuildDate` and exactly its items, in order, each
      with its text unescaped and the image both media tags carry. The build date is the one
      text the source inserts unescaped, so it must not hold a `<`. */
  lemma DocumentRoundTrip(env: Env, ch: Channel, items: seq<Item>)
    requires '<' !in LastBuildDate(env, items)
    ensures var r := ParseDocument(ch, Document(env, ch, items));
            && r == Some(Parsed(LastBuildDate(env, items), EmittedAll(items)))
            && r.Some?
            && r.value.lastBuildDate == LastBuildDate(env, items)
            && r.value.items == EmittedAll(items)
            && |r.value.items| == |items|
            && forall i :: 0 <= i < |items| ==> r.value.items[i] == Emitted(items[i])
  {
    var lb := LastBuildDate(env, items);
    var tail := ItemsXml(items) + Footer;
    Reassociate4(ChannelHead(ch), lb, ChannelTail(), ItemsXml(items), Footer);
    ExpectLiteral(ChannelHead(ch), lb + (ChannelTail() + tail));
    assert ChannelTail()[0] == '<';
    SpanUpTo(lb, '<', ChannelTail() + tail);
    ExpectLiteral(ChannelTail(), tail);
    ItemsRoundTrip(items);
  }
}
