/** Normalisation of URL descriptors: the `array_map` callback of
    `Generator::generateUrls` (Generator.php:165-177). */
module Normalize {
  import opened Outcomes
  import opened Values
  import opened Collaborators

  /** An image after normalisation: an array whose 'loc' is resolved, every
      other field untouched. */
  function NormalizeImage(env: Env, image: Value): (r: Result<Value>)
    ensures image.Scalar? ==> r == Err(ImageNotArray)
    ensures image.Map? && !Has(image.fields, "loc") ==> r == Err(MissingImageLoc)
    ensures r.Ok? <==> image.Map? && Has(image.fields, "loc")
    ensures r.Ok? ==> r.value.Map? && Keys(r.value.fields) == Keys(image.fields)
    ensures r.Ok? ==>
      Get(r.value.fields, "loc") == Scalar(env.urlTo(Get(image.fields, "loc")))
    ensures r.Ok? ==> forall i :: 0 <= i < |image.fields| && image.fields[i].key != "loc" ==>
      r.value.fields[i] == image.fields[i]
  {
    match image
    case Scalar(_) => Err(ImageNotArray)
    case Map(fields) =>
      if !Has(fields, "loc") then Err(MissingImageLoc)
      else Ok(Map(Put(fields, "loc", Scalar(env.urlTo(Get(fields, "loc"))))))
  }

  /** One image field, its key kept (array_map preserves keys). */
  function NormalizeImageField(env: Env, f: Field): Result<Field> {
    match NormalizeImage(env, f.value)
    case Err(e) => Err(e)
    case Ok(v) => Ok(Field(f.key, v))
  }

  /** The 'images' array after normalisation: each image normalised in order,
      keys kept; the first bad image aborts. */
  function NormalizeImages(env: Env, images: Hash): (r: Result<Hash>)
    ensures r.Ok? <==> forall i :: 0 <= i < |images| ==> NormalizeImage(env, images[i].value).Ok?
    ensures r.Ok? ==> Keys(r.value) == Keys(images)
    ensures r.Ok? ==> forall i :: 0 <= i < |images| ==>
      r.value[i].value == NormalizeImage(env, images[i].value).value
    ensures r.Err? ==>
      exists i :: 0 <= i < |images| && NormalizeImage(env, images[i].value).Err?
        && r.error == NormalizeImage(env, images[i].value).error
        && forall j :: 0 <= j < i ==> NormalizeImage(env, images[j].value).Ok?
  {
    var r := Traverse((f: Field) => NormalizeImageField(env, f), images);
    assert forall i :: 0 <= i < |images| ==>
      NormalizeImageField(env, images[i]).Ok? == NormalizeImage(env, images[i].value).Ok?;
    r
  }

  /** The 'lastmod' step: formatted when present; an array is refused. */
  function FormatLastmod(env: Env, e: Hash): (r: Result<Hash>)
    ensures r.Ok? <==> (Has(e, "lastmod") ==> Get(e, "lastmod").Scalar?)
    ensures r.Ok? ==> Keys(r.value) == Keys(e)
    ensures r.Ok? && Has(e, "lastmod") ==>
      Get(r.value, "lastmod") == Scalar(env.dateToW3C(Get(e, "lastmod").text))
    ensures r.Ok? ==> forall i :: 0 <= i < |e| && e[i].key != "lastmod" ==> r.value[i] == e[i]
  {
    if !Has(e, "lastmod") then Ok(e)
    else
      match Get(e, "lastmod")
      case Map(_) => Err(BadLastmod)
      case Scalar(date) => Ok(Put(e, "lastmod", Scalar(env.dateToW3C(date))))
  }

  /** The 'images' step: each image's 'loc' resolved when 'images' is present. */
  function ResolveImages(env: Env, e: Hash): (r: Result<Hash>)
    ensures r.Ok? <==>
      (Has(e, "images") ==>
         Get(e, "images").Map? && NormalizeImages(env, Get(e, "images").fields).Ok?)
    ensures r.Ok? ==> Keys(r.value) == Keys(e)
    ensures r.Ok? && Has(e, "images") ==>
      Get(r.value, "images") == Map(NormalizeImages(env, Get(e, "images").fields).value)
    ensures r.Ok? ==> forall i :: 0 <= i < |e| && e[i].key != "images" ==> r.value[i] == e[i]
  {
    if !Has(e, "images") then Ok(e)
    else
      match Get(e, "images")
      case Scalar(_) => Err(ImagesNotArray)
      case Map(images) =>
        match NormalizeImages(env, images)
        case Err(err) => Err(err)
        case Ok(normalized) => Ok(Put(e, "images", Map(normalized)))
  }

  /** What normalisation needs of an entry to succeed: a 'loc'; a scalar
      'lastmod' if any; and, if 'images' is present, an array of arrays each
      with a 'loc'. */
  predicate Normalizable(e: Hash) {
    && Has(e, "loc")
    && (Has(e, "lastmod") ==> Get(e, "lastmod").Scalar?)
    && (Has(e, "images") ==> Get(e, "images").Map? && ImagesNormalizable(Get(e, "images").fields))
  }

  predicate ImagesNormalizable(images: Hash) {
    forall i :: 0 <= i < |images| ==>
      images[i].value.Map? && Has(images[i].value.fields, "loc")
  }

  /** Every image of an entry is an array: what the url serialiser needs. */
  predicate ImagesAreArrays(e: Hash) {
    forall i :: 0 <= i < |e| && e[i].key == "images" && e[i].value.Map? ==>
      forall j :: 0 <= j < |e[i].value.fields| ==> e[i].value.fields[j].value.Map?
  }

  /** One descriptor after normalisation: 'loc' resolved to an absolute URL,
      'lastmod' (when present) formatted, each image's 'loc' resolved; every
      key keeps its position and every other value is untouched. */
  function NormalizeEntry(env: Env, e: Hash): (r: Result<Hash>)
    ensures !Has(e, "loc") ==> r == Err(MissingLoc)
    ensures r.Ok? <==> Normalizable(e)
    ensures r.Ok? ==> Keys(r.value) == Keys(e)
    ensures r.Ok? ==> Get(r.value, "loc") == Scalar(env.urlTo(Get(e, "loc")))
    ensures r.Ok? && Has(e, "lastmod") ==>
      Get(r.value, "lastmod") == Scalar(env.dateToW3C(Get(e, "lastmod").text))
    ensures r.Ok? && Has(e, "images") ==>
      Get(r.value, "images") == Map(NormalizeImages(env, Get(e, "images").fields).value)
    ensures r.Ok? ==> forall i :: 0 <= i < |e| && e[i].key !in {"loc", "lastmod", "images"} ==>
      r.value[i] == e[i]
    ensures r.Ok? && UniqueKeys(e) ==> UniqueKeys(r.value) && ImagesAreArrays(r.value)
  {
    if !Has(e, "loc") then Err(MissingLoc)
    else
      var url := Scalar(env.urlTo(Get(e, "loc")));
      var withLoc := Put(e, "loc", url);
      match FormatLastmod(env, withLoc)
      case Err(err) =>
        PutOther(e, "loc", url, "lastmod");
        Err(err)
      case Ok(withDate) =>
        var r := ResolveImages(env, withDate);
        NormalizeEntryFacts(env, e, url, withLoc, withDate, r);
        r
  }

  /** How the three steps of NormalizeEntry compose. */
  lemma NormalizeEntryFacts(env: Env, e: Hash, url: Value, withLoc: Hash, withDate: Hash,
                            r: Result<Hash>)
    requires Has(e, "loc") && url == Scalar(env.urlTo(Get(e, "loc")))
    requires withLoc == Put(e, "loc", url)
    requires FormatLastmod(env, withLoc) == Ok(withDate)
    requires r == ResolveImages(env, withDate)
    ensures r.Ok? <==> Normalizable(e)
    ensures r.Ok? ==> Get(r.value, "loc") == url
    ensures r.Ok? && Has(e, "lastmod") ==>
      Get(r.value, "lastmod") == Scalar(env.dateToW3C(Get(e, "lastmod").text))
    ensures r.Ok? && Has(e, "images") ==>
      Get(r.value, "images") == Map(NormalizeImages(env, Get(e, "images").fields).value)
    ensures r.Ok? && UniqueKeys(e) ==> UniqueKeys(r.value) && ImagesAreArrays(r.value)
  {
    PutOther(e, "loc", url, "lastmod");
    PutOther(e, "loc", url, "images");
    if Has(withLoc, "images") {
      GetAgrees(withLoc, withDate, "images");
      ImagesOkIff(env, Get(e, "images"));
    }
    if r.Ok? {
      GetAgrees(withLoc, withDate, "loc");
      GetAgrees(withDate, r.value, "loc");
      if Has(withDate, "lastmod") {
        GetAgrees(withDate, r.value, "lastmod");
      }
      if UniqueKeys(e) {
        UniqueByKeys(e, r.value);
        NormalizedImagesAreArrays(env, withDate, r.value);
      }
    }
  }

  lemma ImagesOkIff(env: Env, images: Value)
    ensures images.Map? ==>
      (NormalizeImages(env, images.fields).Ok? <==> ImagesNormalizable(images.fields))
  {
  }

  lemma UniqueByKeys(a: Hash, b: Hash)
    requires Keys(a) == Keys(b) && UniqueKeys(a)
    ensures UniqueKeys(b)
  {
    forall i, j | 0 <= i < j < |b| ensures b[i].key != b[j].key {
      assert b[i].key == Keys(b)[i] == Keys(a)[i];
      assert b[j].key == Keys(b)[j] == Keys(a)[j];
    }
  }

  lemma NormalizedImagesAreArrays(env: Env, e: Hash, r: Hash)
    requires UniqueKeys(r)
    requires ResolveImages(env, e) == Ok(r)
    ensures ImagesAreArrays(r)
  {
    forall i | 0 <= i < |r| && r[i].key == "images" && r[i].value.Map?
      ensures forall j :: 0 <= j < |r[i].value.fields| ==> r[i].value.fields[j].value.Map?
    {
      assert Keys(r) == Keys(e);
      assert Find(r, "images").value == i;
    }
  }

  /** Every descriptor normalised, in order; the first bad one aborts. */
  function NormalizeAll(env: Env, urls: seq<Hash>): (r: Result<seq<Hash>>)
    ensures r.Ok? <==> forall i :: 0 <= i < |urls| ==> Normalizable(urls[i])
    ensures r.Ok? ==> |r.value| == |urls|
    ensures r.Ok? ==> forall i :: 0 <= i < |urls| ==> r.value[i] == NormalizeEntry(env, urls[i]).value
    ensures r.Err? ==>
      exists i :: 0 <= i < |urls| && NormalizeEntry(env, urls[i]).Err?
        && r.error == NormalizeEntry(env, urls[i]).error
        && forall j :: 0 <= j < i ==> Normalizable(urls[j])
  {
    Traverse((e: Hash) => NormalizeEntry(env, e), urls)
  }
}
