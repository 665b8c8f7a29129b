/** The sitemap builder `Generator` (Generator.php): collecting the entries,
    serialising one url element, and `render`, which partitions the entries
    into sections and builds the index and urlset documents. */
module Generator {
  import opened Outcomes
  import opened Sequences
  import opened Values
  import opened Xml
  import opened Collaborators
  import opened Normalize
  import opened Priority
  import opened Partition

  const SitemapNs := "http://www.sitemaps.org/schemas/sitemap/0.9"
  const ImageNs := "http://www.google.com/schemas/sitemap-image/1.1"
  const NewsNs := "http://www.google.com/schemas/sitemap-news/0.9"

  /** The schema attributes of every urlset, in declaration order. */
  const Schemas: seq<(string, string)> :=
    [("xmlns", SitemapNs), ("xmlns:image", ImageNs), ("xmlns:news", NewsNs)]

  /** The generator's configuration that the pipeline reads. */
  datatype Config = Config(
    urls: seq<Hash>,
    maxSectionUrl: int,
    sortByPriority: bool,
    moduleId: string)

  /** One element of `render`'s result: `['xml' => document]`. */
  datatype Page = Page(xml: Document)

  type Pages = map<int, Page>

  // ---------------------------------------------------------------------
  // Collection (Generator.php:151-164)

  /** The static urls, then each model's `generateSiteMap()` entries in the
      order the models are configured. */
  function Collect(urls: seq<Hash>, sources: seq<seq<Hash>>): seq<Hash> {
    urls + Flatten(sources)
  }

  /** Where every entry of the collected list comes from. */
  lemma CollectOrder(urls: seq<Hash>, sources: seq<seq<Hash>>, j: nat, k: nat)
    requires j < |sources| && k < |sources[j]|
    ensures Collect(urls, sources)[..|urls|] == urls
    ensures |urls| + |Flatten(sources[..j])| + k < |Collect(urls, sources)|
    ensures Collect(urls, sources)[|urls| + |Flatten(sources[..j])| + k] == sources[j][k]
  {
    assert sources == sources[..j] + [sources[j]] + sources[j + 1..];
    FlattenAppend(sources[..j] + [sources[j]], sources[j + 1..]);
    FlattenAppend(sources[..j], [sources[j]]);
    assert Flatten([sources[j]]) == sources[j] + Flatten([]);
  }

  predicate AllUnique(entries: seq<Hash>) {
    forall i :: 0 <= i < |entries| ==> UniqueKeys(entries[i])
  }

  predicate AllImagesAreArrays(entries: seq<Hash>) {
    forall i :: 0 <= i < |entries| ==> ImagesAreArrays(entries[i])
  }

  /** `generateUrls`: collect, normalise every entry, then (when configured)
      order by priority. */
  function GenerateUrls(cfg: Config, env: Env, sources: seq<seq<Hash>>): (r: Result<seq<Hash>>)
    ensures var all := Collect(cfg.urls, sources);
      r.Ok? <==> forall i :: 0 <= i < |all| ==> Normalizable(all[i])
    ensures var all := Collect(cfg.urls, sources);
      r.Err? ==>
        exists i :: 0 <= i < |all| && NormalizeEntry(env, all[i]).Err?
          && r.error == NormalizeEntry(env, all[i]).error
          && forall j :: 0 <= j < i ==> Normalizable(all[j])
    ensures var all := Collect(cfg.urls, sources);
      r.Ok? && !cfg.sortByPriority ==>
        |r.value| == |all| && forall i :: 0 <= i < |all| ==> r.value[i] == NormalizeEntry(env, all[i]).value
    ensures var all := Collect(cfg.urls, sources);
      r.Ok? && cfg.sortByPriority ==>
        && multiset(r.value) == multiset(NormalizeAll(env, all).value)
        && Ordered(env.rank, r.value)
        && (forall i, j :: 0 <= i < j < |r.value| && HasPriority(r.value[j]) ==> HasPriority(r.value[i]))
        && (forall i, j :: 0 <= i < j < |r.value| && HasPriority(r.value[i]) && HasPriority(r.value[j]) ==>
              Rank(env.rank, r.value[i]) >= Rank(env.rank, r.value[j]))
    ensures r.Ok? && AllUnique(Collect(cfg.urls, sources)) ==> AllImagesAreArrays(r.value)
  {
    var all := Collect(cfg.urls, sources);
    match NormalizeAll(env, all)
    case Err(e) => Err(e)
    case Ok(normalized) =>
      NormalizedAreRenderable(env, all, normalized);
      if !cfg.sortByPriority then Ok(normalized)
      else
        var sorted := SortByPriority(env.rank, normalized);
        SortedAreRenderable(normalized, sorted);
        Ok(sorted)
  }

  lemma NormalizedAreRenderable(env: Env, all: seq<Hash>, normalized: seq<Hash>)
    requires NormalizeAll(env, all) == Ok(normalized)
    ensures AllUnique(all) ==> AllImagesAreArrays(normalized)
  {
    if AllUnique(all) {
      forall i | 0 <= i < |normalized| ensures ImagesAreArrays(normalized[i]) {
        assert normalized[i] == NormalizeEntry(env, all[i]).value;
        assert UniqueKeys(all[i]);
      }
    }
  }

  lemma SortedAreRenderable(normalized: seq<Hash>, sorted: seq<Hash>)
    requires multiset(sorted) == multiset(normalized)
    ensures AllImagesAreArrays(normalized) ==> AllImagesAreArrays(sorted)
  {
    if AllImagesAreArrays(normalized) {
      forall i | 0 <= i < |sorted| ensures ImagesAreArrays(sorted[i]) {
        assert sorted[i] in multiset(normalized);
      }
    }
  }

  // ---------------------------------------------------------------------
  // The url element (Generator.php:104-127)

  predicate FieldImagesAreArrays(f: Field) {
    f.key == "images" && f.value.Map? ==>
      forall j :: 0 <= j < |f.value.fields| ==> f.value.fields[j].value.Map?
  }

  /** One `image:image` element per image, its fields prefixed `image:`. */
  function ImageNodes(images: Hash): seq<Node>
    requires forall j :: 0 <= j < |images| ==> images[j].value.Map?
  {
    if images == [] then []
    else [Element("image:image", [], HashToXml(images[0].value.fields, "image:"))] + ImageNodes(images[1..])
  }

  /** The elements one field of an entry contributes to its url element. */
  function FieldNodes(f: Field): seq<Node>
    requires FieldImagesAreArrays(f)
  {
    match f.value
    case Scalar(s) => [Leaf(f.key, s)]
    case Map(m) =>
      if f.key == "news" then [Element("news:news", [], HashToXml(m, "news:"))]
      else if f.key == "images" then ImageNodes(m)
      else []
  }

  function UrlChildren(e: Hash): seq<Node>
    requires ImagesAreArrays(e)
  {
    if e == [] then []
    else
      assert FieldImagesAreArrays(e[0]);
      assert ImagesAreArrays(e[1..]) by {
        forall i | 0 <= i < |e[1..]| ensures e[1..][i] == e[i + 1] {}
      }
      FieldNodes(e[0]) + UrlChildren(e[1..])
  }

  function UrlElement(e: Hash): Node
    requires ImagesAreArrays(e)
  {
    Element("url", [], UrlChildren(e))
  }

  function UrlElements(entries: seq<Hash>): (r: seq<Node>)
    requires AllImagesAreArrays(entries)
  {
    seq(|entries|, k requires 0 <= k < |entries| => UrlElement(entries[k]))
  }

  /** What a url element carries, read as a list: a scalar field, the news
      block, or one image. */
  datatype Part = Plain(key: string, text: string) | News(fields: Hash) | Image(fields: Hash)

  /** The parts an entry should show in its url element: its scalar fields, a
      'news' array and each image of 'images', in key order. Other array
      fields, and the keys of the images list, are not shown. */
  function EntryParts(e: Hash): seq<Part>
    requires ImagesAreArrays(e)
  {
    if e == [] then []
    else
      assert FieldImagesAreArrays(e[0]);
      assert ImagesAreArrays(e[1..]) by {
        forall i | 0 <= i < |e[1..]| ensures e[1..][i] == e[i + 1] {}
      }
      FieldParts(e[0]) + EntryParts(e[1..])
  }

  function FieldParts(f: Field): seq<Part>
    requires FieldImagesAreArrays(f)
  {
    match f.value
    case Scalar(s) => [Plain(f.key, s)]
    case Map(m) =>
      if f.key == "news" then [News(m)]
      else if f.key == "images" then ImageParts(m)
      else []
  }

  function ImageParts(images: Hash): seq<Part>
    requires forall j :: 0 <= j < |images| ==> images[j].value.Map?
  {
    if images == [] then [] else [Image(images[0].value.fields)] + ImageParts(images[1..])
  }

  /** Reads the children of a url element back: an element holding one text
      node is a scalar field under its own name, `news:news` is the news
      block, `image:image` one image; anything else is skipped. */
  function ReadUrl(children: seq<Node>): seq<Part> {
    if children == [] then [] else ReadPart(children[0]) + ReadUrl(children[1..])
  }

  function ReadPart(n: Node): seq<Part> {
    if n.Text? then []
    else if |n.children| == 1 && n.children[0].Text? then [Plain(n.name, n.children[0].content)]
    else if n.name == "news:news" then [News(ReadHash(n.children, "news:"))]
    else if n.name == "image:image" then [Image(ReadHash(n.children, "image:"))]
    else []
  }

  lemma {:induction false} ReadUrlAppend(a: seq<Node>, b: seq<Node>)
    ensures ReadUrl(a + b) == ReadUrl(a) + ReadUrl(b)
  {
    if a == [] {
      assert a + b == b;
    } else {
      assert (a + b)[0] == a[0];
      assert (a + b)[1..] == a[1..] + b;
      ReadUrlAppend(a[1..], b);
    }
  }

  /** The elements hashToXML writes never include a bare text node at the top. */
  lemma HashToXmlHasNoText(h: Hash, ns: string)
    ensures |HashToXml(h, ns)| == 1 ==> !HashToXml(h, ns)[0].Text?
  {
  }

  lemma {:induction false} ReadImageNodes(images: Hash)
    requires forall j :: 0 <= j < |images| ==> images[j].value.Map?
    ensures ReadUrl(ImageNodes(images)) == ImageParts(images)
  {
    if images != [] {
      var fields := images[0].value.fields;
      var n := Element("image:image", [], HashToXml(fields, "image:"));
      HashToXmlHasNoText(fields, "image:");
      ReadHashToXml(fields, "image:");
      assert ReadPart(n) == [Image(fields)];
      ReadUrlAppend([n], ImageNodes(images[1..]));
      assert ReadUrl([n]) == ReadPart(n) + ReadUrl([]);
      ReadImageNodes(images[1..]);
    }
  }

  lemma ReadFieldNodes(f: Field)
    requires FieldImagesAreArrays(f)
    ensures ReadUrl(FieldNodes(f)) == FieldParts(f)
  {
    match f.value
    case Scalar(s) =>
      assert ReadUrl([Leaf(f.key, s)]) == ReadPart(Leaf(f.key, s)) + ReadUrl([]);
    case Map(m) =>
      if f.key == "news" {
        var n := Element("news:news", [], HashToXml(m, "news:"));
        HashToXmlHasNoText(m, "news:");
        ReadHashToXml(m, "news:");
        assert ReadUrl([n]) == ReadPart(n) + ReadUrl([]);
      } else if f.key == "images" {
        ReadImageNodes(m);
      }
  }

  /** A url element loses nothing it is meant to show: reading its children
      back gives, in key order, every scalar field under its own unprefixed
      name, the 'news' array (its keys read with prefix `news:`), and each
      image of 'images' (with prefix `image:`); other array fields leave no
      element. */
  lemma {:induction false} ReadUrlElement(e: Hash)
    requires ImagesAreArrays(e)
    ensures UrlElement(e).name == "url" && UrlElement(e).attrs == []
    ensures ReadUrl(UrlElement(e).children) == EntryParts(e)
  {
    if e != [] {
      assert FieldImagesAreArrays(e[0]);
      assert ImagesAreArrays(e[1..]) by {
        forall i | 0 <= i < |e[1..]| ensures e[1..][i] == e[i + 1] {}
      }
      ReadUrlAppend(FieldNodes(e[0]), UrlChildren(e[1..]));
      ReadFieldNodes(e[0]);
      ReadUrlElement(e[1..]);
    }
  }

  // ---------------------------------------------------------------------
  // Element names (Generator.php:110, 113, 124, 199): XMLWriter refuses an
  // element name that is not an XML Name, which aborts the render.

  /** The element names an entry's keys give its url element, stated on the
      keys: a scalar field's key as it stands, `news:` before every key of the
      news array at every depth, and `image:` before every key of every image.
      Other array fields, and the keys of the images list itself, name no
      element. */
  predicate KeysAreNames(w: WideChars, e: Hash) {
    forall i :: 0 <= i < |e| ==> FieldKeysAreNames(w, e[i])
  }

  predicate FieldKeysAreNames(w: WideChars, f: Field) {
    match f.value
    case Scalar(_) => ValidName(w, f.key)
    case Map(m) =>
      if f.key == "news" then PrefixedNames(w, "news:", m)
      else if f.key == "images" then
        (forall j :: 0 <= j < |m| ==> m[j].value.Map?) && ImagesNamed(w, m)
      else true
  }

  /** Every entry can be written: XMLWriter accepts every element name of its
      url element. */
  predicate Writable(w: WideChars, urls: seq<Hash>) {
    forall i :: 0 <= i < |urls| ==> ImagesAreArrays(urls[i]) && NamesValid(w, UrlElement(urls[i]))
  }

  /** The images of `images`, each with every prefixed key an XML Name. */
  predicate ImagesNamed(w: WideChars, images: Hash)
    requires forall j :: 0 <= j < |images| ==> images[j].value.Map?
  {
    forall j :: 0 <= j < |images| ==> PrefixedNames(w, "image:", images[j].value.fields)
  }

  lemma ImagesNamedSplit(w: WideChars, images: Hash)
    requires images != [] && forall j :: 0 <= j < |images| ==> images[j].value.Map?
    ensures ImagesNamed(w, images) <==>
      PrefixedNames(w, "image:", images[0].value.fields) && ImagesNamed(w, images[1..])
  {
    var tail := images[1..];
    if PrefixedNames(w, "image:", images[0].value.fields) && ImagesNamed(w, tail) {
      forall j | 1 <= j < |images| ensures PrefixedNames(w, "image:", images[j].value.fields) {
        assert images[j] == tail[j - 1];
      }
    }
    if ImagesNamed(w, images) {
      forall j | 0 <= j < |tail| ensures PrefixedNames(w, "image:", tail[j].value.fields) {
        assert tail[j] == images[j + 1];
      }
    }
  }

  lemma {:induction false} ImageNodesNames(w: WideChars, images: Hash)
    requires forall j :: 0 <= j < |images| ==> images[j].value.Map?
    ensures AllNamesValid(w, ImageNodes(images)) <==> ImagesNamed(w, images)
  {
    if images != [] {
      var fields := images[0].value.fields;
      var n := Element("image:image", [], HashToXml(fields, "image:"));
      assert ImageNodes(images) == [n] + ImageNodes(images[1..]);
      assert ValidName(w, "image:image");
      HashToXmlNames(w, fields, "image:");
      SingleNames(w, n);
      ImageNodesNames(w, images[1..]);
      AllNamesValidAppend(w, [n], ImageNodes(images[1..]));
      ImagesNamedSplit(w, images);
    }
  }

  lemma FieldNodesNames(w: WideChars, f: Field)
    requires FieldImagesAreArrays(f)
    ensures AllNamesValid(w, FieldNodes(f)) <==> FieldKeysAreNames(w, f)
  {
    match f.value
    case Scalar(s) =>
      var n := Element(f.key, [], [Text(s)]);
      assert FieldNodes(f) == [n];
      assert AllNamesValid(w, [Text(s)]);
      assert NamesValid(w, n) <==> ValidName(w, f.key);
      SingleNames(w, n);
    case Map(m) =>
      if f.key == "news" {
        var n := Element("news:news", [], HashToXml(m, "news:"));
        assert FieldNodes(f) == [n];
        assert ValidName(w, "news:news");
        HashToXmlNames(w, m, "news:");
        SingleNames(w, n);
      } else if f.key == "images" {
        ImageNodesNames(w, m);
      }
  }

  lemma {:induction false} UrlChildrenNames(w: WideChars, e: Hash)
    requires ImagesAreArrays(e)
    ensures AllNamesValid(w, UrlChildren(e)) <==> KeysAreNames(w, e)
  {
    if e != [] {
      assert FieldImagesAreArrays(e[0]);
      assert ImagesAreArrays(e[1..]) by {
        forall i | 0 <= i < |e[1..]| ensures e[1..][i] == e[i + 1] {}
      }
      UrlChildrenNames(w, e[1..]);
      FieldNodesNames(w, e[0]);
      AllNamesValidAppend(w, FieldNodes(e[0]), UrlChildren(e[1..]));
      if FieldKeysAreNames(w, e[0]) && KeysAreNames(w, e[1..]) {
        forall i | 1 <= i < |e| ensures FieldKeysAreNames(w, e[i]) {
          assert e[i] == e[1..][i - 1];
        }
      }
    }
  }

  /** XMLWriter accepts every name of an entry's url element exactly when the
      entry's keys are names as `KeysAreNames` states them. */
  lemma UrlNamesByKeys(w: WideChars, e: Hash)
    requires ImagesAreArrays(e)
    ensures NamesValid(w, UrlElement(e)) <==> KeysAreNames(w, e)
  {
    assert ValidName(w, "url");
    UrlChildrenNames(w, e);
  }

  /** A scalar under the integer key 0 has no XML Name, so an entry holding
      one cannot be written. */
  lemma NumericScalarKey(w: WideChars)
    ensures !Writable(w, [[Field("loc", Scalar("/a")), Field("0", Scalar("x"))]])
  {
    var e := [Field("loc", Scalar("/a")), Field("0", Scalar("x"))];
    assert ImagesAreArrays(e);
    UrlNamesByKeys(w, e);
    assert !ValidName(w, "0") by {
      assert "0"[0] == '0';
    }
    assert !FieldKeysAreNames(w, e[1]);
    assert [e][0] == e;
  }

  /** Integer keys of the images list name no element, and behind the
      `news:` prefix a digit is a name character, so this entry can be
      written. */
  lemma NumericListKeys(w: WideChars)
    ensures Writable(w, [[Field("loc", Scalar("/a")),
                          Field("images", Map([Field("0", Map([Field("loc", Scalar("/i"))]))])),
                          Field("news", Map([Field("0", Scalar("n"))]))]])
  {
    var image := [Field("loc", Scalar("/i"))];
    var images := [Field("0", Map(image))];
    var news := [Field("0", Scalar("n"))];
    var e := [Field("loc", Scalar("/a")), Field("images", Map(images)), Field("news", Map(news))];
    assert ValidName(w, "loc");
    assert ValidName(w, "image:loc");
    assert ValidName(w, "news:0");
    assert PrefixedNames(w, "image:", image);
    assert PrefixedNames(w, "news:", news);
    assert ImagesNamed(w, images);
    assert FieldKeysAreNames(w, e[0]);
    assert FieldKeysAreNames(w, e[1]);
    assert FieldKeysAreNames(w, e[2]);
    assert KeysAreNames(w, e);
    assert ImagesAreArrays(e);
    UrlNamesByKeys(w, e);
    assert [e][0] == e;
  }

  // ---------------------------------------------------------------------
  // Rendering (Generator.php:71-141)

  function Digit(d: nat): char
    requires d < 10
  {
    "0123456789"[d]
  }

  /** Decimal text of a natural number. */
  function NatText(n: nat): string {
    if n < 10 then [Digit(n)] else NatText(n / 10) + [Digit(n % 10)]
  }

  /** `Url::to([$moduleId . '/web/index', 'id' => $i], true)`: the address of
      section i. */
  function SectionLoc(env: Env, moduleId: string, i: nat): string {
    env.urlTo(Map([Field("0", Scalar(moduleId + "/web/index")), Field("id", Scalar(NatText(i)))]))
  }

  /** The index document: a `sitemapindex` root carrying only `xmlns`, with
      one `sitemap` child per section i = 1..parts, each holding the section's
      `loc` and the render time as `lastmod`. */
  ghost predicate IsIndexPage(p: Page, env: Env, moduleId: string, parts: nat) {
    var root := p.xml.root;
    && p.xml.version == XmlVersion && p.xml.encoding == XmlEncoding
    && root.Element? && root.name == "sitemapindex" && root.attrs == [("xmlns", SitemapNs)]
    && |root.children| == parts
    && forall k :: 0 <= k < parts ==>
         root.children[k] == Element("sitemap", [], [
           Leaf("loc", SectionLoc(env, moduleId, k + 1)),
           Leaf("lastmod", env.formatTime(env.clock(k + 1)))])
  }

  /** A content document: a `urlset` root carrying the three schema
      attributes in order, with one `url` child per entry, in order. */
  ghost predicate IsUrlsetPage(p: Page, entries: seq<Hash>) {
    var root := p.xml.root;
    && p.xml.version == XmlVersion && p.xml.encoding == XmlEncoding
    && root.Element? && root.name == "urlset" && root.attrs == Schemas
    && |root.children| == |entries|
    && forall k :: 0 <= k < |entries| ==>
         ImagesAreArrays(entries[k]) && root.children[k] == UrlElement(entries[k])
  }

  /** The page keys and contents `render` produces for the entries `urls`,
      with parts = ceil(n/m):
      - parts > 1: key 0 is the index, keys 1..parts the sections in order;
      - parts == 1: the only content page, holding every entry, is at key 0;
      - parts < 1 (no entries, or a negative section size): no page at all. */
  ghost predicate Layout(pages: Pages, urls: seq<Hash>, m: int, env: Env, moduleId: string)
    requires m != 0
  {
    var parts := CeilDiv(|urls|, m);
    && (parts > 1 ==>
          && (forall k :: k in pages <==> 0 <= k <= parts)
          && IsIndexPage(pages[0], env, moduleId, parts)
          && forall i :: 1 <= i <= parts ==> IsUrlsetPage(pages[i], Section(urls, m, i)))
    && (parts == 1 ==>
          && (forall k :: k in pages <==> k == 0)
          && IsUrlsetPage(pages[0], urls))
    && (parts < 1 ==> pages == map[])
  }

  /** A cached result is used when the cache holds a truthy (non-empty) value. */
  predicate Hit(cached: Option<Pages>) {
    cached.Some? && |cached.value| > 0
  }

  /** The index document, built as lines 80-92 build it. */
  method IndexPage(env: Env, moduleId: string, parts: nat) returns (p: Page)
    ensures IsIndexPage(p, env, moduleId, parts)
  {
    var sitemaps: seq<Node> := [];
    var i := 1;
    while i <= parts
      invariant 1 <= i <= parts + 1
      invariant |sitemaps| == i - 1
      invariant forall k :: 0 <= k < i - 1 ==>
        sitemaps[k] == Element("sitemap", [], [
          Leaf("loc", SectionLoc(env, moduleId, k + 1)),
          Leaf("lastmod", env.formatTime(env.clock(k + 1)))])
    {
      var loc := Leaf("loc", SectionLoc(env, moduleId, i));
      var lastmod := Leaf("lastmod", env.formatTime(env.clock(i)));
      sitemaps := sitemaps + [Element("sitemap", [], [loc, lastmod])];
      i := i + 1;
    }
    p := Page(Document(XmlVersion, XmlEncoding, Element("sitemapindex", [("xmlns", SitemapNs)], sitemaps)));
  }

  /** The url elements of entries lo..hi, as the inner loop of lines 103-128
      writes them. */
  method UrlsetPage(urls: seq<Hash>, lo: nat, hi: nat) returns (p: Page)
    requires lo <= hi <= |urls| && AllImagesAreArrays(urls)
    ensures IsUrlsetPage(p, urls[lo..hi])
  {
    var nodes: seq<Node> := [];
    var item := lo;
    while item < hi
      invariant lo <= item <= hi
      invariant |nodes| == item - lo
      invariant forall k :: 0 <= k < item - lo ==> nodes[k] == UrlElement(urls[lo + k])
    {
      nodes := nodes + [UrlElement(urls[item])];
      item := item + 1;
    }
    p := Page(Document(XmlVersion, XmlEncoding, Element("urlset", Schemas, nodes)));
  }

  /** The content pages at keys 1..parts, as the loop of lines 94-133
      writes them: `urlItem` carries over from one section to the next. */
  method ContentPages(urls: seq<Hash>, m: int, parts: int) returns (pages: Pages)
    requires m != 0 && parts == CeilDiv(|urls|, m) && AllImagesAreArrays(urls)
    ensures forall k :: k in pages <==> 1 <= k <= parts
    ensures forall k :: 1 <= k <= parts ==> IsUrlsetPage(pages[k], Section(urls, m, k))
  {
    var n := |urls|;
    pages := map[];
    var urlItem := 0;
    var i := 1;
    while i <= parts
      invariant 1 <= i && (parts >= 1 ==> i <= parts + 1) && (parts < 1 ==> i == 1)
      invariant parts >= 1 ==> m > 0
      invariant i > 1 ==> urlItem == Min((i - 1) * m, n)
      invariant i == 1 ==> urlItem == 0
      invariant forall k :: k in pages <==> 1 <= k < i
      invariant forall k :: 1 <= k < i ==> IsUrlsetPage(pages[k], Section(urls, m, k))
    {
      SectionBounds(n, m, i);
      var hi := Min(i * m, n);
      assert urlItem == (i - 1) * m;
      var page := UrlsetPage(urls, urlItem, hi);
      assert urls[urlItem..hi] == Section(urls, m, i);
      pages := pages[i := page];
      urlItem := hi;
      i := i + 1;
    }
  }

  /** The whole result for the generated entries (lines 78-138). */
  method BuildPages(urls: seq<Hash>, m: int, env: Env, moduleId: string) returns (result: Pages)
    requires m != 0 && AllImagesAreArrays(urls)
    ensures Layout(result, urls, m, env, moduleId)
  {
    var parts := CeilDiv(|urls|, m);
    var content := ContentPages(urls, m, parts);
    if parts > 1 {
      var index := IndexPage(env, moduleId, parts);
      result := content[0 := index];
    } else if parts == 1 {
      SectionBounds(|urls|, m, 1);
      assert Section(urls, m, 1) == urls;
      result := content[0 := content[1]] - {1};
    } else {
      result := map[];
    }
  }

  /** `render()`: the cached result when there is one; otherwise the
      generated entries split into sections of `maxSectionUrl`, laid out as
      `Layout` describes. When at least one section is written, every entry
      is written, and a name XMLWriter refuses aborts the render: the check is
      made before building, which gives the same result because nothing is
      returned or cached before the end. */
  method Render(cfg: Config, env: Env, sources: seq<seq<Hash>>, cached: Option<Pages>)
    returns (r: Result<Pages>)
    requires AllUnique(Collect(cfg.urls, sources))
    ensures Hit(cached) ==> r == Ok(cached.value)
    ensures !Hit(cached) && GenerateUrls(cfg, env, sources).Err? ==>
      r == Err(GenerateUrls(cfg, env, sources).error)
    ensures !Hit(cached) && GenerateUrls(cfg, env, sources).Ok? && cfg.maxSectionUrl == 0 ==>
      r == Err(DivisionByZero)
    ensures !Hit(cached) && GenerateUrls(cfg, env, sources).Ok? && cfg.maxSectionUrl != 0 ==>
      var urls := GenerateUrls(cfg, env, sources).value;
      if CeilDiv(|urls|, cfg.maxSectionUrl) >= 1 && !Writable(env.names, urls) then
        r == Err(InvalidName)
      else
        r.Ok? && Layout(r.value, urls, cfg.maxSectionUrl, env, cfg.moduleId)
    ensures !Hit(cached) && r.Ok? ==>
      forall k :: k in r.value ==> NamesValid(env.names, r.value[k].xml.root)
  {
    if Hit(cached) {
      return Ok(cached.value);
    }
    var generated := GenerateUrls(cfg, env, sources);
    if generated.Err? {
      return Err(generated.error);
    }
    var m := cfg.maxSectionUrl;
    if m == 0 {
      return Err(DivisionByZero);
    }
    var urls := generated.value;
    if CeilDiv(|urls|, m) >= 1 && !Writable(env.names, urls) {
      return Err(InvalidName);
    }
    var pages := BuildPages(urls, m, env, cfg.moduleId);
    LayoutWritable(pages, urls, m, env, cfg.moduleId);
    r := Ok(pages);
  }

  lemma WritableSlice(w: WideChars, urls: seq<Hash>, lo: int, hi: int)
    requires 0 <= lo <= hi <= |urls| && Writable(w, urls)
    ensures Writable(w, urls[lo..hi])
  {
    forall i | 0 <= i < hi - lo
      ensures ImagesAreArrays(urls[lo..hi][i]) && NamesValid(w, UrlElement(urls[lo..hi][i]))
    {
      assert urls[lo..hi][i] == urls[lo + i];
    }
  }

  lemma UrlsetNames(w: WideChars, p: Page, entries: seq<Hash>)
    requires IsUrlsetPage(p, entries) && Writable(w, entries)
    ensures NamesValid(w, p.xml.root)
  {
    assert ValidName(w, "urlset");
    assert AllNamesValid(w, p.xml.root.children);
  }

  lemma IndexNames(w: WideChars, p: Page, env: Env, moduleId: string, parts: nat)
    requires IsIndexPage(p, env, moduleId, parts)
    ensures NamesValid(w, p.xml.root)
  {
    assert ValidName(w, "sitemapindex");
    assert ValidName(w, "sitemap");
    assert ValidName(w, "loc");
    assert ValidName(w, "lastmod");
    var root := p.xml.root;
    forall k | 0 <= k < |root.children| ensures NamesValid(w, root.children[k]) {
      var c := root.children[k];
      assert AllNamesValid(w, c.children[0].children);
      assert AllNamesValid(w, c.children[1].children);
      assert AllNamesValid(w, c.children);
    }
  }

  /** Every document of a layout passes XMLWriter's name check, provided the
      entries are writable whenever a section is written at all. */
  lemma LayoutWritable(pages: Pages, urls: seq<Hash>, m: int, env: Env, moduleId: string)
    requires m != 0 && Layout(pages, urls, m, env, moduleId)
    requires CeilDiv(|urls|, m) >= 1 ==> Writable(env.names, urls)
    ensures forall k :: k in pages ==> NamesValid(env.names, pages[k].xml.root)
  {
    var parts := CeilDiv(|urls|, m);
    var w := env.names;
    if parts > 1 {
      forall k | k in pages ensures NamesValid(w, pages[k].xml.root) {
        if k == 0 {
          IndexNames(w, pages[0], env, moduleId, parts);
        } else {
          SectionBounds(|urls|, m, k);
          WritableSlice(w, urls, (k - 1) * m, Min(k * m, |urls|));
          UrlsetNames(w, pages[k], Section(urls, m, k));
        }
      }
    } else if parts == 1 {
      UrlsetNames(w, pages[0], urls);
    }
  }

  /** An index document is built exactly when there is more than one section. */
  lemma IndexIffManyParts(pages: Pages, urls: seq<Hash>, m: int, env: Env, moduleId: string)
    requires m != 0 && Layout(pages, urls, m, env, moduleId)
    ensures (0 in pages && pages[0].xml.root.Element? && pages[0].xml.root.name == "sitemapindex")
            <==> CeilDiv(|urls|, m) > 1
  {
    var parts := CeilDiv(|urls|, m);
    if parts == 1 {
      assert pages[0].xml.root.name == "urlset";
    }
  }

  /** With no entries nothing is written at all, not even an empty urlset. */
  lemma NoEntriesNoPages(pages: Pages, m: int, env: Env, moduleId: string)
    requires m != 0 && Layout(pages, [], m, env, moduleId)
    ensures pages == map[]
  {
    if m > 0 {
      CeilDivUnique(0, m, 0);
    }
  }
}
