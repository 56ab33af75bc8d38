/** Gallery assembly (`is_attachment_image` and the body of
    `ask_user_for_guild_channel` in src/main.rs, without its console prompts):
    choosing the category's text channels, attributing each channel to the
    author with the most image-bearing messages, extracting its pictures
    oldest first with their thumbnail paths, titling it, and sorting the
    galleries by title. The fetched message history is an input. */
module GalleryAssembly {
  import opened Strings
  import opened Sorting
  import opened Paths
  import opened GuildLoading
  import opened ChannelNames

  /** `WEBSITE_BUILD_DIRECTORY` */
  const WebsiteBuildDirectory: string := "built_websites"
  /** The stand-in for a channel without a name. */
  const UnnamedChannel: string := "No channel name?"

  datatype Attachment = Attachment(contentType: Option<string>, proxyUrl: Url)

  /** A fetched message: its author's name, its text and its attachments. */
  datatype Message = Message(author: string, content: string, attachments: seq<Attachment>)

  /** `GalleryPictureInfo`, `Gallery` and `GalleryPageInfo` of the page
      builder. */
  datatype GalleryPictureInfo = GalleryPictureInfo(description: Option<string>, discordUrl: string, thumbnailUrl: string)
  datatype Gallery = Gallery(galleryTitle: string, galleryPictureInfos: seq<GalleryPictureInfo>)
  datatype GalleryPageInfo = GalleryPageInfo(pageTitle: string, galleries: seq<Gallery>, guildBuiltFrom: string, pageBuiltTime: string)

  /** A `queue_download(save_path, url)` request. */
  datatype DownloadRequest = DownloadRequest(savePath: string, url: Url)

  function GalleryTitleOf(g: Gallery): string { g.galleryTitle }

  // ---------------------------------------------------------------------
  // Attachments

  /** `is_attachment_image`: the declared content type is trusted as is. */
  predicate IsAttachmentImage(a: Attachment) {
    a.contentType.Some? && StartsWith(a.contentType.value, "image")
  }

  /** An attachment is an image exactly when its content type is present and
      is `image` followed by anything. */
  lemma ImageIffImageContentType(a: Attachment)
    ensures IsAttachmentImage(a) <==> exists rest :: a.contentType == Some("image" + rest)
  {
    if IsAttachmentImage(a) {
      var ct := a.contentType.value;
      assert ct == "image" + ct[5..];
    }
  }

  /** `message.attachments.iter().any(is_attachment_image)` */
  predicate HasImage(m: Message) {
    exists i :: 0 <= i < |m.attachments| && IsAttachmentImage(m.attachments[i])
  }

  // ---------------------------------------------------------------------
  // Categories and channels

  predicate IsEligibleCategory(c: Channel, channels: seq<Channel>) {
    c.kind == GuildCategory && exists t :: t in channels && t.parentId == Some(c.id) && t.kind == GuildText
  }

  /** The categories offered to the operator: those that are the parent of at
      least one text channel, in channel-list order. */
  function EligibleCategories(channels: seq<Channel>): (r: seq<Channel>)
    ensures Subsequence(r, channels)
    ensures forall c :: c in r <==>
      c in channels && c.kind == GuildCategory
      && exists t :: t in channels && t.parentId == Some(c.id) && t.kind == GuildText
    ensures forall c :: multiset(r)[c] == if IsEligibleCategory(c, channels) then multiset(channels)[c] else 0
  {
    Filter(channels, (c: Channel) => IsEligibleCategory(c, channels))
  }

  /** The channels a gallery is built from: the text channels whose parent is
      the chosen category, in channel-list order. */
  function CategoryChannels(channels: seq<Channel>, category: Channel): (r: seq<Channel>)
    ensures Subsequence(r, channels)
    ensures forall c :: c in r <==> c in channels && c.parentId == Some(category.id) && c.kind == GuildText
    ensures forall c :: multiset(r)[c] == (if c.parentId == Some(category.id) && c.kind == GuildText then multiset(channels)[c] else 0)
  {
    Filter(channels, (c: Channel) => c.parentId == Some(category.id) && c.kind == GuildText)
  }

  // ---------------------------------------------------------------------
  // Author attribution

  /** How many of `msgs` are by `author` and carry at least one image. */
  function ImageMessageCount(msgs: seq<Message>, author: string): nat
    decreases |msgs|
  {
    if |msgs| == 0 then 0
    else
      var last := msgs[|msgs| - 1];
      ImageMessageCount(msgs[..|msgs| - 1], author) + (if last.author == author && HasImage(last) then 1 else 0)
  }

  /** The author a channel is attributed to: `None` when no message carries
      an image; otherwise an author with the most image-bearing messages, the
      greatest name among those tied. */
  ghost predicate IsAttributedAuthor(msgs: seq<Message>, author: Option<string>) {
    match author
    case None => forall i :: 0 <= i < |msgs| ==> !HasImage(msgs[i])
    case Some(w) =>
      && ImageMessageCount(msgs, w) > 0
      && (forall n :: ImageMessageCount(msgs, n) <= ImageMessageCount(msgs, w))
      && (forall n :: ImageMessageCount(msgs, n) == ImageMessageCount(msgs, w) ==> LessEq(n, w))
  }

  /** An image-bearing message counts for its author. */
  lemma {:induction false} ImageMessageCounted(msgs: seq<Message>, i: nat)
    requires i < |msgs| && HasImage(msgs[i])
    ensures ImageMessageCount(msgs, msgs[i].author) > 0
    decreases |msgs|
  {
    if i < |msgs| - 1 {
      var init := msgs[..|msgs| - 1];
      assert init[i] == msgs[i];
      ImageMessageCounted(init, i);
    }
  }

  /** At most one outcome satisfies the attribution rule. */
  lemma AttributionUnique(msgs: seq<Message>, a: Option<string>, b: Option<string>)
    requires IsAttributedAuthor(msgs, a) && IsAttributedAuthor(msgs, b)
    ensures a == b
  {
    match a {
      case None =>
        if b.Some? { NoImagesNoCount(msgs, b.value); }
      case Some(w) =>
        if b.None? {
          NoImagesNoCount(msgs, w);
        } else {
          LessEqAntisym(w, b.value);
        }
    }
  }

  lemma {:induction false} NoImagesNoCount(msgs: seq<Message>, n: string)
    requires forall i :: 0 <= i < |msgs| ==> !HasImage(msgs[i])
    ensures ImageMessageCount(msgs, n) == 0
    decreases |msgs|
  {
    if |msgs| > 0 {
      var init := msgs[..|msgs| - 1];
      assert forall i :: 0 <= i < |init| ==> init[i] == msgs[i];
      NoImagesNoCount(init, n);
    }
  }

  /** The counts `BTreeMap<&String, i32>`: entries in strictly ascending key
      order, each with a positive count. */
  datatype Entry = Entry(name: string, count: nat)

  ghost predicate WellFormedCounts(es: seq<Entry>) {
    && (forall i, j :: 0 <= i < j < |es| ==> Less(es[i].name, es[j].name))
    && (forall i :: 0 <= i < |es| ==> es[i].count > 0)
  }

  /** The count stored for `n`, 0 when absent. */
  function Lookup(es: seq<Entry>, n: string): nat
    decreases |es|
  {
    if |es| == 0 then 0 else if es[0].name == n then es[0].count else Lookup(es[1..], n)
  }

  lemma LessTrans(a: string, b: string, c: string)
    requires Less(a, b) && LessEq(b, c)
    ensures Less(a, c)
  {
    LessEqTrans(a, b, c);
    if a == c { LessEqAntisym(a, b); }
  }

  /** A name below every key is absent. */
  lemma {:induction false} BelowAllAbsent(es: seq<Entry>, n: string)
    requires WellFormedCounts(es)
    requires |es| > 0 ==> Less(n, es[0].name)
    ensures Lookup(es, n) == 0
    decreases |es|
  {
    if |es| > 1 {
      LessTrans(n, es[0].name, es[1].name);
      BelowAllAbsent(es[1..], n);
    }
  }

  /** `*counts.entry(n).or_insert(0) += 1` */
  function Increment(es: seq<Entry>, n: string): (r: seq<Entry>)
    requires WellFormedCounts(es)
    ensures WellFormedCounts(r)
    ensures forall k :: Lookup(r, k) == Lookup(es, k) + (if k == n then 1 else 0)
    ensures |r| > 0 && (r[0].name == n || (|es| > 0 && r[0].name == es[0].name))
    decreases |es|
  {
    if |es| == 0 then [Entry(n, 1)]
    else if es[0].name == n then
      assert forall k :: k != n ==> Lookup(es, k) == Lookup(es[1..], k);
      [Entry(n, es[0].count + 1)] + es[1..]
    else if LessEq(n, es[0].name) then
      BelowAllAbsent(es, n);
      PrependKeepsOrder(Entry(n, 1), es);
      [Entry(n, 1)] + es
    else
      LessEqTotal(n, es[0].name);
      var rest := Increment(es[1..], n);
      assert |es| > 1 ==> Less(es[0].name, es[1].name);
      PrependKeepsOrder(es[0], rest);
      assert forall k :: Lookup(es, k) == (if k == es[0].name then es[0].count else Lookup(es[1..], k));
      assert forall k :: Lookup([es[0]] + rest, k) == (if k == es[0].name then es[0].count else Lookup(rest, k));
      [es[0]] + rest
  }

  lemma PrependKeepsOrder(e: Entry, es: seq<Entry>)
    requires WellFormedCounts(es) && e.count > 0
    requires |es| > 0 ==> Less(e.name, es[0].name)
    ensures WellFormedCounts([e] + es)
  {
    var r := [e] + es;
    forall i, j | 0 <= i < j < |r| ensures Less(r[i].name, r[j].name) {
      if i == 0 && j > 1 {
        LessTrans(e.name, es[0].name, es[j - 1].name);
      }
    }
  }

  /** The counts after the first `|msgs|` messages, as the counting loop
      builds them. */
  function CountEntries(msgs: seq<Message>): (es: seq<Entry>)
    ensures WellFormedCounts(es)
    ensures forall n :: Lookup(es, n) == ImageMessageCount(msgs, n)
    decreases |msgs|
  {
    if |msgs| == 0 then []
    else
      var prev := CountEntries(msgs[..|msgs| - 1]);
      var last := msgs[|msgs| - 1];
      if HasImage(last) then Increment(prev, last.author) else prev
  }

  /** A stored count belongs to an entry holding it. */
  lemma {:induction false} LookupFound(es: seq<Entry>, n: string) returns (t: nat)
    requires Lookup(es, n) > 0
    ensures t < |es| && es[t].name == n && es[t].count == Lookup(es, n)
    decreases |es|
  {
    if es[0].name == n {
      t := 0;
    } else {
      var u := LookupFound(es[1..], n);
      t := u + 1;
    }
  }

  /** `max_by_key` over the entries in key order: the index of the last
      entry with the greatest count. */
  function LastMaxIndex(es: seq<Entry>): (b: nat)
    requires |es| > 0
    ensures b < |es|
    ensures forall t :: 0 <= t < |es| ==> es[t].count <= es[b].count
    ensures forall t :: b < t < |es| ==> es[t].count < es[b].count
    decreases |es|
  {
    if |es| == 1 then 0
    else
      var b := LastMaxIndex(es[..|es| - 1]);
      if es[|es| - 1].count >= es[b].count then |es| - 1 else b
  }

  /** The last greatest entry of correct counts names the attributed author. */
  lemma LastMaxIsAttributed(msgs: seq<Message>, es: seq<Entry>, b: nat)
    requires WellFormedCounts(es)
    requires forall n :: Lookup(es, n) == ImageMessageCount(msgs, n)
    requires b < |es|
    requires forall t :: 0 <= t < |es| ==> es[t].count <= es[b].count
    requires forall t :: b < t < |es| ==> es[t].count < es[b].count
    ensures IsAttributedAuthor(msgs, Some(es[b].name))
  {
    var w := es[b].name;
    var u := LookupFound(es, w) by { assert Lookup(es, w) > 0 by { LookupAt(es, b); } }
    assert u == b;
    forall n ensures ImageMessageCount(msgs, n) <= ImageMessageCount(msgs, w)
      && (ImageMessageCount(msgs, n) == ImageMessageCount(msgs, w) ==> LessEq(n, w))
    {
      if Lookup(es, n) > 0 {
        var t := LookupFound(es, n);
        if t == b { LessEqRefl(w); }
      }
    }
  }

  lemma {:induction false} LookupAt(es: seq<Entry>, t: nat)
    requires WellFormedCounts(es) && t < |es|
    ensures Lookup(es, es[t].name) == es[t].count
    decreases |es|
  {
    if t > 0 {
      assert Less(es[0].name, es[t].name);
      LookupAt(es[1..], t - 1);
    }
  }

  /** No entries means no image-bearing message. */
  lemma EmptyCountsNoImages(msgs: seq<Message>, es: seq<Entry>)
    requires forall n :: Lookup(es, n) == ImageMessageCount(msgs, n)
    requires |es| == 0
    ensures IsAttributedAuthor(msgs, None)
  {
    forall i | 0 <= i < |msgs| ensures !HasImage(msgs[i]) {
      if HasImage(msgs[i]) { ImageMessageCounted(msgs, i); }
    }
  }

  /** The attribution as a function of the history. */
  function DominantAuthor(msgs: seq<Message>): (r: Option<string>)
    ensures IsAttributedAuthor(msgs, r)
  {
    var es := CountEntries(msgs);
    if |es| == 0 then
      EmptyCountsNoImages(msgs, es);
      None
    else
      var b := LastMaxIndex(es);
      LastMaxIsAttributed(msgs, es, b);
      Some(es[b].name)
  }

  /** The attribution block: counts image-bearing messages per author in a
      `BTreeMap`, then takes the last maximum in key order. */
  method AttributeAuthor(messages: seq<Message>) returns (author: Option<string>)
    ensures IsAttributedAuthor(messages, author)
  {
    var counts: seq<Entry> := [];
    for i := 0 to |messages|
      invariant WellFormedCounts(counts)
      invariant forall n :: Lookup(counts, n) == ImageMessageCount(messages[..i], n)
    {
      var message := messages[i];
      assert messages[..i + 1][..i] == messages[..i];
      if HasImage(message) {
        counts := Increment(counts, message.author);
      }
    }
    assert messages[..|messages|] == messages;
    if |counts| == 0 {
      EmptyCountsNoImages(messages, counts);
      return None;
    }
    var best := 0;
    for j := 1 to |counts|
      invariant best < j
      invariant forall t :: 0 <= t < j ==> counts[t].count <= counts[best].count
      invariant forall t :: best < t < j ==> counts[t].count < counts[best].count
    {
      if counts[j].count >= counts[best].count {
        best := j;
      }
    }
    LastMaxIsAttributed(messages, counts, best);
    author := Some(counts[best].name);
  }

  // ---------------------------------------------------------------------
  // Picture extraction

  /** A picture record and the download request made for it. */
  datatype Picture = Picture(info: GalleryPictureInfo, download: DownloadRequest)

  /** The thumbnail of a picture sits at the website-relative path the page
      links to, and the download request targets that path from the same
      URL. */
  predicate WellPlaced(p: Picture) {
    && p.download.savePath == Join(WebsiteBuildDirectory, p.info.thumbnailUrl)
    && StripPrefix(p.download.savePath, WebsiteBuildDirectory) == Some(p.info.thumbnailUrl)
    && p.download.url.text == p.info.discordUrl
  }

  /** `None` for an empty message text, the text otherwise. */
  function Description(m: Message): (d: Option<string>)
    ensures d.None? <==> |m.content| == 0
    ensures d.Some? ==> d.value == m.content
  {
    if |m.content| == 0 then None else Some(m.content)
  }

  /** One image attachment's picture: parse the proxy URL (a panic if it does
      not parse), trim the leading `/`s of its path, save under the build
      directory, and link the thumbnail by the path relative to it. */
  function AttachmentPicture(description: Option<string>, a: Attachment): (r: Result<Picture>)
    ensures r.Err? <==> a.proxyUrl.path.None?
    ensures r.Err? ==> r.panic == UnparseableUrl
    ensures r.Ok? ==>
      && r.value.info.thumbnailUrl == TrimLeadingSlashes(a.proxyUrl.path.value)
      && r.value.info.description == description
      && r.value.info.discordUrl == a.proxyUrl.text
      && r.value.download.url == a.proxyUrl
      && WellPlaced(r.value)
  {
    match a.proxyUrl.path
    case None => Err(UnparseableUrl)
    case Some(path) =>
      var trimmed := TrimLeadingSlashes(path);
      var savePath := Join(WebsiteBuildDirectory, trimmed);
      StripPrefixOfJoin(WebsiteBuildDirectory, trimmed);
      var thumbnailUrl := StripPrefix(savePath, WebsiteBuildDirectory).value;
      Ok(Picture(GalleryPictureInfo(description, a.proxyUrl.text, thumbnailUrl), DownloadRequest(savePath, a.proxyUrl)))
  }

  /** `m.attachments.into_iter().filter(is_attachment_image)`: the image
      attachments, each as often as attached, in attachment order. */
  function ImageAttachments(m: Message): (r: seq<Attachment>)
    ensures Subsequence(r, m.attachments)
    ensures forall a :: a in r <==> a in m.attachments && IsAttachmentImage(a)
    ensures forall a :: multiset(r)[a] == if IsAttachmentImage(a) then multiset(m.attachments)[a] else 0
  {
    Filter(m.attachments, IsAttachmentImage)
  }

  /** `xs.iter().map(f)` where `f` may panic: the first panic, or every
      result in order. */
  function MapOk<A, B>(f: A -> Result<B>, xs: seq<A>): (r: Result<seq<B>>)
    ensures r.Err? <==> exists i :: 0 <= i < |xs| && f(xs[i]).Err?
    ensures r.Ok? ==> |r.value| == |xs|
    ensures r.Ok? ==> forall i :: 0 <= i < |xs| ==> f(xs[i]) == Ok(r.value[i])
    decreases |xs|
  {
    if |xs| == 0 then Ok([])
    else
      match f(xs[0])
      case Err(p) => Err(p)
      case Ok(first) =>
        match MapOk(f, xs[1..])
        case Err(p) =>
          assert exists i :: 0 <= i < |xs| && f(xs[i]).Err? by {
            var i :| 0 <= i < |xs[1..]| && f(xs[1..][i]).Err?;
            assert xs[i + 1] == xs[1..][i];
          }
          Err(p)
        case Ok(rest) =>
          assert forall i :: 0 < i < |xs| ==> xs[i] == xs[1..][i - 1];
          Ok([first] + rest)
  }

  /** The pictures of a list of image attachments, in order. */
  function PicturesOf(description: Option<string>, images: seq<Attachment>): (r: Result<seq<Picture>>)
    ensures r.Err? <==> exists i :: 0 <= i < |images| && images[i].proxyUrl.path.None?
    ensures r.Ok? ==> |r.value| == |images|
    ensures r.Ok? ==> forall i :: 0 <= i < |images| ==> AttachmentPicture(description, images[i]) == Ok(r.value[i])
  {
    MapOk(a => AttachmentPicture(description, a), images)
  }

  /** One picture per image attachment of the message, in attachment order,
      each described by the message text. */
  function MessagePictures(m: Message): (r: Result<seq<Picture>>)
    ensures r.Err? <==> exists a :: a in m.attachments && IsAttachmentImage(a) && a.proxyUrl.path.None?
    ensures r.Ok? ==> |r.value| == |ImageAttachments(m)|
    ensures r.Ok? ==> forall i :: 0 <= i < |r.value| ==>
      AttachmentPicture(Description(m), ImageAttachments(m)[i]) == Ok(r.value[i])
  {
    ImageWithoutPath(m);
    PicturesOf(Description(m), ImageAttachments(m))
  }

  /** Some image attachment has an unparseable URL exactly when some entry of
      the filtered list has one. */
  lemma ImageWithoutPath(m: Message)
    ensures (exists i :: 0 <= i < |ImageAttachments(m)| && ImageAttachments(m)[i].proxyUrl.path.None?)
      <==> (exists a :: a in m.attachments && IsAttachmentImage(a) && a.proxyUrl.path.None?)
  {
    var images := ImageAttachments(m);
    if i :| 0 <= i < |images| && images[i].proxyUrl.path.None? {
      assert images[i] in images;
    }
    if a :| a in m.attachments && IsAttachmentImage(a) && a.proxyUrl.path.None? {
      assert a in images;
      var i :| 0 <= i < |images| && images[i] == a;
    }
  }

  /** `channel_messages.into_iter().rev().flat_map(..)`: the history arrives
      newest first, so the last message's pictures come first. */
  function ExtractPictures(msgs: seq<Message>): (r: Result<seq<Picture>>)
    ensures r.Ok? ==> forall i :: 0 <= i < |r.value| ==> WellPlaced(r.value[i])
    decreases |msgs|
  {
    if |msgs| == 0 then Ok([])
    else
      match MessagePictures(msgs[|msgs| - 1])
      case Err(p) => Err(p)
      case Ok(oldest) =>
        match ExtractPictures(msgs[..|msgs| - 1])
        case Err(p) => Err(p)
        case Ok(newer) => Ok(oldest + newer)
  }

  /** Concatenation of two extraction results, the first one's panic first. */
  function ThenPictures(first: Result<seq<Picture>>, second: Result<seq<Picture>>): Result<seq<Picture>> {
    match first
    case Err(p) => Err(p)
    case Ok(xs) =>
      match second
      case Err(p) => Err(p)
      case Ok(ys) => Ok(xs + ys)
  }

  /** A single message gives exactly its own pictures. */
  lemma ExtractSingle(m: Message)
    ensures ExtractPictures([m]) == MessagePictures(m)
  {
    var single := [m];
    assert single[..0] == [];
    assert ExtractPictures(single[..0]) == Ok([]);
    match MessagePictures(m) {
      case Err(_) =>
      case Ok(newest) => assert newest + [] == newest;
    }
  }

  /** Extraction reverses message order: the pictures of the later part of
      the history (the older messages) come before those of the earlier
      part, and a panic in the later part is the one raised. */
  lemma {:induction false} ExtractionReversesHistory(a: seq<Message>, b: seq<Message>)
    ensures ExtractPictures(a + b) == ThenPictures(ExtractPictures(b), ExtractPictures(a))
    decreases |b|
  {
    if |b| == 0 {
      assert a + b == a;
      match ExtractPictures(a) {
        case Err(_) =>
        case Ok(rest) => assert [] + rest == rest;
      }
    } else {
      var ab := a + b;
      var init := b[..|b| - 1];
      var last := b[|b| - 1];
      assert ab[..|ab| - 1] == a + init;
      assert ab[|ab| - 1] == last;
      calc {
        ExtractPictures(ab);
        { ExtractStep(ab); }
        ThenPictures(MessagePictures(last), ExtractPictures(a + init));
        { ExtractionReversesHistory(a, init); }
        ThenPictures(MessagePictures(last), ThenPictures(ExtractPictures(init), ExtractPictures(a)));
        { ThenAssociative(MessagePictures(last), ExtractPictures(init), ExtractPictures(a)); }
        ThenPictures(ThenPictures(MessagePictures(last), ExtractPictures(init)), ExtractPictures(a));
        { ExtractStep(b); }
        ThenPictures(ExtractPictures(b), ExtractPictures(a));
      }
    }
  }

  lemma ThenAssociative(x: Result<seq<Picture>>, y: Result<seq<Picture>>, z: Result<seq<Picture>>)
    ensures ThenPictures(x, ThenPictures(y, z)) == ThenPictures(ThenPictures(x, y), z)
  {
    if x.Ok? && y.Ok? && z.Ok? {
      assert x.value + (y.value + z.value) == (x.value + y.value) + z.value;
    }
  }

  /** One unfolding of `ExtractPictures` on a nonempty history. */
  lemma ExtractStep(msgs: seq<Message>)
    requires |msgs| > 0
    ensures ExtractPictures(msgs) ==
      ThenPictures(MessagePictures(msgs[|msgs| - 1]), ExtractPictures(msgs[..|msgs| - 1]))
  {
  }

  // ---------------------------------------------------------------------
  // Titles, channels and galleries

  /** `"<parsed name> (<author>)"`, parsing the channel's name, or
      "No channel name?" when it has none, in first-name/last-initial mode. */
  function GalleryTitle(channel: Channel, author: string): (r: Result<string>)
    ensures r.Err? ==> r.panic == EmptyNamePart
    ensures r.Ok? ==> |r.value| >= |author| + 3 && r.value[|r.value| - |author| - 3..] == " (" + author + ")"
  {
    var name := if channel.name.Some? then channel.name.value else UnnamedChannel;
    match ParseAuthorName(name, FirstFullLastInitial)
    case Err(p) => Err(p)
    case Ok(parsed) => Ok(parsed + " (" + author + ")")
  }

  /** A channel without a name is titled `No channel name? (author)`. */
  lemma UnnamedChannelTitle(channel: Channel, author: string)
    requires channel.name.None?
    ensures GalleryTitle(channel, author) == Ok(UnnamedChannel + " (" + author + ")")
  {
    UndashedNameKept(UnnamedChannel);
  }

  /** A `first-last...` channel is titled `First L. (author)`; an empty
      first or last part panics. */
  lemma NamedChannelTitle(channel: Channel, author: string, first: string, last: string, rest: string)
    requires '-' !in first && '-' !in last && (|rest| == 0 || rest[0] == '-')
    requires channel.name == Some(first + "-" + last + rest)
    ensures |first| == 0 || |last| == 0 ==> GalleryTitle(channel, author) == Err(EmptyNamePart)
    ensures |first| > 0 && |last| > 0 ==>
      GalleryTitle(channel, author) ==
        Ok(([AsciiUpper(first[0])] + AsciiLowerStr(first[1..]) + " " + [AsciiUpper(last[0])] + ".") + " (" + author + ")")
  {
    FirstTwoPartsDecide(first, last, rest);
  }

  function Infos(ps: seq<Picture>): (r: seq<GalleryPictureInfo>)
    ensures |r| == |ps| && forall i :: 0 <= i < |ps| ==> r[i] == ps[i].info
  {
    seq(|ps|, i requires 0 <= i < |ps| => ps[i].info)
  }

  function Downloads(ps: seq<Picture>): (r: seq<DownloadRequest>)
    ensures |r| == |ps| && forall i :: 0 <= i < |ps| ==> r[i] == ps[i].download
  {
    seq(|ps|, i requires 0 <= i < |ps| => ps[i].download)
  }

  /** Galleries in channel order and the downloads queued for them. */
  datatype Collected = Collected(galleries: seq<Gallery>, downloads: seq<DownloadRequest>)

  /** One channel's gallery: none for an empty history or one without
      images; otherwise titled after the attributed author, with the
      pictures oldest first. */
  function ChannelGallery(channel: Channel, msgs: seq<Message>): (r: Result<Option<(Gallery, seq<Picture>)>>)
    ensures r.Ok? && r.value.Some? ==>
      && DominantAuthor(msgs).Some?
      && GalleryTitle(channel, DominantAuthor(msgs).value) == Ok(r.value.value.0.galleryTitle)
      && ExtractPictures(msgs) == Ok(r.value.value.1)
      && r.value.value.0.galleryPictureInfos == Infos(r.value.value.1)
  {
    if |msgs| == 0 then Ok(None)
    else
      match DominantAuthor(msgs)
      case None => Ok(None)
      case Some(author) =>
        match ExtractPictures(msgs)
        case Err(p) => Err(p)
        case Ok(pictures) =>
          match GalleryTitle(channel, author)
          case Err(p) => Err(p)
          case Ok(title) => Ok(Some((Gallery(title, Infos(pictures)), pictures)))
  }

  /** A channel yields no gallery exactly when none of its messages carries
      an image: an empty history, or one whose messages have no image
      attachment. */
  lemma NoGalleryIffNoImages(channel: Channel, msgs: seq<Message>)
    ensures ChannelGallery(channel, msgs) == Ok(None) <==> forall i :: 0 <= i < |msgs| ==> !HasImage(msgs[i])
  {
    var author := DominantAuthor(msgs);
    if author.Some? {
      if forall i :: 0 <= i < |msgs| ==> !HasImage(msgs[i]) {
        NoImagesNoCount(msgs, author.value);
      }
    }
  }

  /** The channel loop before sorting: the first panic ends it. */
  function CollectGalleries(channels: seq<Channel>, history: map<nat, seq<Message>>): (r: Result<Collected>)
    ensures r.Ok? ==> |r.value.galleries| <= |channels|
    ensures r.Ok? ==> forall i :: 0 <= i < |channels| ==> channels[i].id in history
    decreases |channels|
  {
    if |channels| == 0 then Ok(Collected([], []))
    else
      match CollectGalleries(channels[..|channels| - 1], history)
      case Err(p) => Err(p)
      case Ok(prev) =>
        var channel := channels[|channels| - 1];
        if channel.id !in history then Err(HistoryFetchFailed)
        else
          match ChannelGallery(channel, history[channel.id])
          case Err(p) => Err(p)
          case Ok(None) => Ok(prev)
          case Ok(Some((gallery, pictures))) =>
            Ok(Collected(prev.galleries + [gallery], prev.downloads + Downloads(pictures)))
  }

  /** A panic in the first channels is the panic of the whole loop. */
  lemma {:induction false} PanicPersists(channels: seq<Channel>, history: map<nat, seq<Message>>, i: nat)
    requires i <= |channels|
    requires CollectGalleries(channels[..i], history).Err?
    ensures CollectGalleries(channels, history) == CollectGalleries(channels[..i], history)
    decreases |channels| - i
  {
    if i < |channels| {
      assert channels[..i + 1][..i] == channels[..i];
      PanicPersists(channels, history, i + 1);
    } else {
      assert channels[..i] == channels;
    }
  }

  /** A download of the picture's URL to `built_websites/<thumbnail>` is
      among `downloads`. */
  ghost predicate Queued(p: GalleryPictureInfo, downloads: seq<DownloadRequest>) {
    exists d :: d in downloads && d.savePath == Join(WebsiteBuildDirectory, p.thumbnailUrl) && d.url.text == p.discordUrl
  }

  lemma NewGalleryQueued(gallery: Gallery, pictures: seq<Picture>)
    requires gallery.galleryPictureInfos == Infos(pictures)
    requires forall i :: 0 <= i < |pictures| ==> WellPlaced(pictures[i])
    ensures forall p :: p in gallery.galleryPictureInfos ==> Queued(p, Downloads(pictures))
  {
    forall p | p in gallery.galleryPictureInfos ensures Queued(p, Downloads(pictures)) {
      var k :| 0 <= k < |pictures| && Infos(pictures)[k] == p;
      assert Downloads(pictures)[k] in Downloads(pictures);
    }
  }

  lemma QueuedInConcatenation(p: GalleryPictureInfo, xs: seq<DownloadRequest>, ys: seq<DownloadRequest>)
    requires Queued(p, xs) || Queued(p, ys)
    ensures Queued(p, xs + ys)
  {
    var d :| (d in xs || d in ys) && d.savePath == Join(WebsiteBuildDirectory, p.thumbnailUrl) && d.url.text == p.discordUrl;
    assert d in xs + ys;
  }

  /** One unfolding of a successful `CollectGalleries`. */
  lemma CollectStep(channels: seq<Channel>, history: map<nat, seq<Message>>)
    requires |channels| > 0 && CollectGalleries(channels, history).Ok?
    ensures var init := channels[..|channels| - 1];
      var channel := channels[|channels| - 1];
      && CollectGalleries(init, history).Ok?
      && channel.id in history
      && ChannelGallery(channel, history[channel.id]).Ok?
      && var prev := CollectGalleries(init, history).value;
         var out := ChannelGallery(channel, history[channel.id]).value;
         CollectGalleries(channels, history).value ==
           if out.None? then prev
           else Collected(prev.galleries + [out.value.0], prev.downloads + Downloads(out.value.1))
  {
  }

  /** Every picture of every collected gallery links a thumbnail for which a
      download to `built_websites/<thumbnail>` of its URL was queued. */
  lemma {:induction false} EveryPictureQueued(channels: seq<Channel>, history: map<nat, seq<Message>>)
    requires CollectGalleries(channels, history).Ok?
    ensures var c := CollectGalleries(channels, history).value;
      forall g, p :: g in c.galleries && p in g.galleryPictureInfos ==> Queued(p, c.downloads)
    decreases |channels|
  {
    if |channels| > 0 {
      var init := channels[..|channels| - 1];
      var channel := channels[|channels| - 1];
      CollectStep(channels, history);
      EveryPictureQueued(init, history);
      var prev := CollectGalleries(init, history).value;
      var c := CollectGalleries(channels, history).value;
      var out := ChannelGallery(channel, history[channel.id]).value;
      if out.Some? {
        var (gallery, pictures) := out.value;
        assert ExtractPictures(history[channel.id]) == Ok(pictures);
        NewGalleryQueued(gallery, pictures);
        forall g, p | g in c.galleries && p in g.galleryPictureInfos ensures Queued(p, c.downloads) {
          QueuedInConcatenation(p, prev.downloads, Downloads(pictures));
        }
      }
    }
  }

  /** The channel loop: pushes each channel's gallery, then sorts by title
      (`sort_unstable_by`; the model's sort is one admissible outcome). */
  method AssembleGalleries(channels: seq<Channel>, history: map<nat, seq<Message>>) returns (r: Result<Collected>)
    ensures CollectGalleries(channels, history).Err? ==> r == CollectGalleries(channels, history)
    ensures CollectGalleries(channels, history).Ok? ==>
      var c := CollectGalleries(channels, history).value;
      && r.Ok?
      && SortedBy(r.value.galleries, GalleryTitleOf)
      && multiset(r.value.galleries) == multiset(c.galleries)
      && r.value.galleries == SortBy(c.galleries, GalleryTitleOf)
      && r.value.downloads == c.downloads
  {
    var galleries: seq<Gallery> := [];
    var downloads: seq<DownloadRequest> := [];
    for i := 0 to |channels|
      invariant CollectGalleries(channels[..i], history) == Ok(Collected(galleries, downloads))
    {
      var channel := channels[i];
      assert channels[..i + 1][..i] == channels[..i];
      assert channels[..i + 1][i] == channel;
      if channel.id !in history {
        PanicPersists(channels, history, i + 1);
        return Err(HistoryFetchFailed);
      }
      var messages := history[channel.id];
      if |messages| == 0 {
        continue;
      }
      var author := AttributeAuthor(messages);
      AttributionUnique(messages, author, DominantAuthor(messages));
      if author.None? {
        continue;
      }
      var pictures := ExtractPictures(messages);
      if pictures.Err? {
        PanicPersists(channels, history, i + 1);
        return Err(pictures.panic);
      }
      var title := GalleryTitle(channel, author.value);
      if title.Err? {
        PanicPersists(channels, history, i + 1);
        return Err(title.panic);
      }
      galleries := galleries + [Gallery(title.value, Infos(pictures.value))];
      downloads := downloads + Downloads(pictures.value);
    }
    assert channels[..|channels|] == channels;
    galleries := SortBy(galleries, GalleryTitleOf);
    r := Ok(Collected(galleries, downloads));
  }

  /** Everything `ask_user_for_guild_channel` produces once the operator has
      chosen: the page record and the downloads it queued, in order. */
  datatype BuildOutput = BuildOutput(page: GalleryPageInfo, downloads: seq<DownloadRequest>)

  /** `ask_user_for_guild_channel` after the prompts: the chosen guild and
      category are given by index (out of range panics, as does a category
      without a name), and each channel's history by channel id (a missing
      one is a failed fetch). */
  method BuildGalleryPage(guilds: seq<GuildInfo>, guildIndex: nat, categoryIndex: nat, history: map<nat, seq<Message>>)
    returns (r: Result<BuildOutput>)
    ensures guildIndex >= |guilds| ==> r == Err(GuildIndexOutOfRange)
    ensures guildIndex < |guilds| && categoryIndex >= |EligibleCategories(guilds[guildIndex].channels)| ==>
      r == Err(CategoryIndexOutOfRange)
    ensures guildIndex < |guilds| && categoryIndex < |EligibleCategories(guilds[guildIndex].channels)| ==>
      var guild := guilds[guildIndex];
      var category := EligibleCategories(guild.channels)[categoryIndex];
      var collected := CollectGalleries(CategoryChannels(guild.channels, category), history);
      && (category.name.None? ==> r == Err(CategoryWithoutName))
      && (category.name.Some? && collected.Err? ==> r == Err(collected.panic))
      && (category.name.Some? && collected.Ok? ==>
            && r.Ok?
            && r.value.page.pageTitle == guild.name + " Photo Galleries"
            && r.value.page.guildBuiltFrom == guild.name
            && r.value.page.pageBuiltTime == "PAGE BUILT TIME"
            && SortedBy(r.value.page.galleries, GalleryTitleOf)
            && multiset(r.value.page.galleries) == multiset(collected.value.galleries)
            && r.value.downloads == collected.value.downloads)
  {
    if guildIndex >= |guilds| {
      return Err(GuildIndexOutOfRange);
    }
    var chosenGuild := guilds[guildIndex];
    var validCategories := EligibleCategories(chosenGuild.channels);
    if categoryIndex >= |validCategories| {
      return Err(CategoryIndexOutOfRange);
    }
    var chosenCategory := validCategories[categoryIndex];
    if chosenCategory.name.None? {
      return Err(CategoryWithoutName);
    }
    var channels := CategoryChannels(chosenGuild.channels, chosenCategory);
    var assembled := AssembleGalleries(channels, history);
    if assembled.Err? {
      return Err(assembled.panic);
    }
    var page := GalleryPageInfo(chosenGuild.name + " Photo Galleries", assembled.value.galleries, chosenGuild.name, "PAGE BUILT TIME");
    r := Ok(BuildOutput(page, assembled.value.downloads));
  }
}
