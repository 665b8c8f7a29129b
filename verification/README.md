# Sitemap generator model

A Dafny model of the URL-to-sitemap pipeline of the Yii2 sitemap module's
`Generator` component. `render()` runs these steps:

1. It collects the static `urls` and then each configured model's
   `generateSiteMap()` entries.
2. It normalises every entry. `loc` becomes an absolute URL, `lastmod`
   becomes a W3C date, and each image's `loc` becomes an absolute URL.
3. If `sortByPriority` is set, it orders the entries by priority.
4. It splits the entries into sections of `maxSectionUrl` entries.
5. It builds one `urlset` document per section. When there is more than one
   section, it also builds a `sitemapindex` document.

The model is functional throughout:

- An entry is an associative array in insertion order: a sequence of
  `Field(key, value)`.
- A value is a scalar or a nested array (`Values.Value`).
- A document is an element tree (`Xml.Node`), not bytes.
- The framework services and PHP built-ins the pipeline calls are
  uninterpreted functions, gathered in `Collaborators.Env`. These are
  `Url::to`, `dateToW3C`, `date`, `time()`, the number PHP compares for a
  priority, and libxml2's classification of name characters beyond ASCII.

Modules, leaf to root:

- `Outcomes`: the failure kinds, plus `Traverse`, which models `array_map`
  with a callback that may throw.
- `Sequences`: `Flatten`, which models `array_merge` of lists.
- `Values`: keys, lookup and in-place update.
- `Xml`: the element tree, `hashToXML`, and the XML Name rules XMLWriter
  enforces.
- `Collaborators`: the external services.
- `Normalize`: the `array_map` callback of `generateUrls`.
- `Priority`: `sortUrlsByPriority`.
- `Partition`: section count and section contents.
- `Generator`: collection, the url element, the index and urlset documents,
  the page-key layout, and `render`.

In these cases the code behaves differently from what a reader of the
generator's API might expect, and the model follows the code:

- **No entries.** One might expect a single empty `urlset`. But with no
  entries, `parts` is 0. Neither loop runs, and `parts == 1` is false, so no
  page is written. The result stays the falsy value the cache returned. The
  model returns an empty map.
- **Unparsable dates.** A date string that cannot be parsed does not abort.
  `strtotime` returns false, and `date` formats that as the epoch. This
  behaviour is inside the uninterpreted `dateToW3C`. Only an array `lastmod`
  fails, because `strtotime` refuses it.
- **Missing or malformed data.** A missing `loc`, a scalar `images`, a scalar
  image, or an image without `loc` aborts the render. These are PHP notices
  and warnings, which the framework's error handler raises as exceptions.
- **Keys that are not XML names.** Every key that becomes an element name
  must be an XML Name: a scalar field's key, and each key of the `news` array
  or of an image behind its `news:` or `image:` prefix. XMLWriter checks each
  name with libxml2's `xmlValidateName`. PHP 7 reports a refused name as an
  "Invalid Element Name" warning, and PHP 8 throws a `ValueError`. Either way
  the render aborts, for example on a scalar under the integer key 0 or on a
  key holding a space. The model returns `InvalidName` when some written
  entry has such a key.
- **Section size 0 or negative.** `maxSectionUrl == 0` is a division by zero.
  A negative `maxSectionUrl` gives `parts <= 0`, so no page is written.

## Model

| member | source | states |
|---|---|---|
| `Values.Put` | Generator.php:166 | Assigning an existing key replaces its value in place. Every key keeps its position, and every field with another key is unchanged. |
| `Xml.HashToXml` | Generator.php:196-208 | One element per key, in key order, named prefix + key, with no attributes. A scalar becomes the single text child. An array becomes as many child elements as it has keys. |
| `Xml.HashToXmlNamespaced` | Generator.php:196-208 | Every element at every depth of the output is named with the same prefix and has no attributes. |
| `Xml.HashToXmlNames` | Generator.php:196-208 | XMLWriter accepts every element hashToXML writes exactly when the prefix followed by each key, at every depth, is an XML Name. |
| `Xml.ReadHashToXml` | Generator.php:196-208 | Serialising loses nothing. Reading the elements back with the same prefix gives the original keys, the scalars as text, and the nested arrays. |
| `Normalize.NormalizeImage` | Generator.php:171-174 | An image succeeds iff it is an array with `loc`. A scalar image is an error, and so is a missing `loc`. On success, `loc` is resolved through `Url::to`, the keys are unchanged, and every other field is unchanged. |
| `Normalize.NormalizeImages` | Generator.php:170-175 | Succeeds iff every image succeeds. Keys are kept and each value is the normalised image. Otherwise the error is the one from the first failing image. |
| `Normalize.FormatLastmod` | Generator.php:167-169 | Succeeds iff `lastmod` is absent or scalar. A present `lastmod` is replaced by its W3C format. Keys are unchanged, and every other field is unchanged. |
| `Normalize.ResolveImages` | Generator.php:170-175 | Succeeds iff `images` is absent, or is an array whose images all normalise. Only the `images` field changes. |
| `Normalize.NormalizeEntry` | Generator.php:165-177 | A missing `loc` is the error `MissingLoc`. Success holds exactly for entries that meet `Normalizable`. Keys keep their order. `loc` is resolved, a present `lastmod` is formatted, and `images` holds the normalised images. Every field other than these three is unchanged. With unique keys, the result has unique keys and only array images. |
| `Normalize.NormalizeAll` | Generator.php:165-177 | Succeeds iff every entry is normalisable. The output has the same length and order, entry i being entry i normalised. Otherwise the error is the one from the first bad entry. |
| `Priority.SortByPriority` | Generator.php:229-248 | The output is a permutation of the input, ordered by the corrected comparator. Every entry with a priority precedes every entry without one. The priorities are non-increasing. |
| `Priority.SortOrderedIsIdentity` | Generator.php:229-248 | The model's sort, which keeps ties in input order, returns an already ordered input unchanged. `usort` does not: see "Left out". |
| `Priority.SortIdempotent` | Generator.php:229-248 | Sorting twice with the model's sort is sorting once. `usort` with the written callback is not idempotent: see "Left out". |
| `Priority.SourceCompareNotAntisymmetric` | Generator.php:231-247 | The written callback answers 1 for both argument orders when neither entry has a priority. |
| `Priority.CompareConsistent` | Generator.php:231-247 | The corrected callback differs from the written one only when both priorities are missing. Swapping its arguments flips its sign. "Not after" is total and transitive. |
| `Partition.CeilDiv` | Generator.php:78 | `parts = ceil(n/m)`. For m > 0 it is the least r with r*m >= n. For m < 0 it is the least r with r*m <= n, which is at most 0. |
| `Partition.SectionsAreChunks` | Generator.php:94-103 | The sections the render loop slices are exactly the reference chunking: ceil(n/m) chunks, the i-th being entries [(i-1)*m, min(i*m, n)). |
| `Partition.SectionsCover` | Generator.php:94-103 | There are ceil(n/m) sections. Each holds between 1 and m entries. Concatenated in order, they give back the whole entry list. |
| `Generator.CollectOrder` | Generator.php:151-164 | The collected list starts with the static urls. Entry k of model j sits right after the static urls and the entries of models 0..j-1. |
| `Generator.GenerateUrls` | Generator.php:149-184 | Succeeds iff every collected entry is normalisable. Otherwise the error is the one from the first bad entry. Unsorted, the result is the collected list normalised in order. Sorted, it is a permutation of that list, ordered, with entries that have a priority first and priorities non-increasing. |
| `Generator.ReadUrlElement` | Generator.php:104-127 | A `url` element reads back, in key order, every scalar field under its own unprefixed name, one `news:news` block holding the `news` array, and one `image:image` per image. Other array fields leave no element. |
| `Generator.IndexPage` | Generator.php:80-92 | The index document is `sitemapindex` with only `xmlns`. It has exactly `parts` `sitemap` children, in order i = 1..parts, each holding `loc` (the section's route with id i) and `lastmod` (the render time). |
| `Generator.UrlsetPage` | Generator.php:96-128 | The document is `urlset` carrying `xmlns`, `xmlns:image` and `xmlns:news` in that order. It has one `url` child per entry of the slice, in order. |
| `Generator.ContentPages` | Generator.php:94-133 | Content pages are at keys 1..parts. Page i holds exactly section i, with `urlItem` carried across sections. |
| `Generator.BuildPages` | Generator.php:78-138 | The page-key layout. For parts > 1, key 0 holds the index and keys 1..parts hold the sections. For parts == 1, the sole content page, holding all entries, is at key 0 and key 1 is absent. For parts < 1, no page is written. |
| `Generator.UrlNamesByKeys` | Generator.php:104-127 | XMLWriter accepts every name of an entry's url element exactly when each scalar field's key is an XML Name, and so is every key of the news array behind `news:` and of each image behind `image:`. The keys of other arrays and of the images list do not matter. |
| `Generator.NumericScalarKey` | Generator.php:124 | An entry with a scalar under the integer key 0 cannot be written, because `0` is no XML Name. |
| `Generator.NumericListKeys` | Generator.php:108-119 | Integer keys of the images list name no element, and `news:0` is an XML Name, so such an entry can be written. |
| `Generator.LayoutWritable` | Generator.php:80-133 | When the entries are writable, every document of the layout passes XMLWriter's name check: the index, and every urlset over a section. |
| `Generator.Render` | Generator.php:71-141 | A truthy cached result is returned unchanged. Otherwise a generation error is returned, and a zero section size is a division by zero. If at least one section is written and some entry has a name XMLWriter refuses, the result is `InvalidName`. Otherwise the result has the layout above for the generated entries. Every document of a fresh result passes the name check. |
| `Generator.IndexIffManyParts` | Generator.php:79-93 | An index document is present exactly when there is more than one section. |
| `Generator.NoEntriesNoPages` | Generator.php:135-137 | With no entries, no page is written at all. |

## Left out

- `Module.php` only registers the component and sets `moduleId`. It has no
  logic to verify.
- The cache (Generator.php:73-76, 139) is a framework singleton. Its read
  becomes the `cached` parameter, and a truthy, non-empty value is returned
  unchanged.
- Render: the cache write of line 139 is a side effect, so `Render` does not
  state it.
- `Url::to`, `dateToW3C`, `strtotime`, `date` and `time()` are external. They
  are uninterpreted functions in `Collaborators.Env`. `time()` is read once per
  index child, which the model keeps as `clock(i)`.
- Model instantiation by class name and `attachBehaviors` (Generator.php:153-163)
  use reflection and framework behaviour. Each model is given as the sequence
  of entries its `generateSiteMap()` returns.
- XMLWriter byte output is not modelled: the prolog text, escaping and
  `outputMemory`. The extra `endElement()` of line 131 is a no-op, because no
  element is open at that point.
- `enableGzip`, `cacheKey` and `cacheExpire` are transport and cache
  configuration with no logic here.
- Priorities are floats in PHP. `Env.rank` maps each priority to an abstract
  real, the number PHP's `==` and `<` compare. PHP's loose comparison between
  values of mixed types is not modelled.
- `ceil` of a float division is modelled as exact integer ceiling division.
  Rounding for counts beyond 2^53 is not modelled.
- PHP `null` is not modelled, so `isset` is key presence.
- The integer/string distinction inside `dateToW3C` is folded into the
  uninterpreted function.
- Entry lists are PHP lists. String keys in `urls` or in a model's result,
  which `array_merge` would overwrite, are not modelled.
- Render: its input entries must have unique keys. A PHP array cannot repeat a
  key, but Dafny cannot express that as a subset type of the recursive value
  type.
- SortOrderedIsIdentity: this holds of the model's sort only. The written
  callback answers 1 for two entries without a priority, and `usort` swaps a
  pair whenever the callback answers more than 0. So `usort` turns an ordered
  `[a, b]` of two such entries into `[b, a]`.
- SortIdempotent: this holds of the model's sort only. For the same reason,
  `usort` on two entries without a priority swaps them on every call.
- Render: the `switch` on a field's key (Generator.php:107) is read with PHP 8
  comparison. Under PHP 7, `0 == 'news'` holds, so an array under the integer
  key 0 would be written as a `news:0` block. The model writes nothing for it,
  as PHP 8 does.
- ReadUrlElement: it makes the same PHP 8 assumption about an array under the
  integer key 0.
- Render: which characters beyond ASCII may start or continue an XML Name is
  given by large tables in the XML 1.0 recommendation. These are the
  uninterpreted `Env.names`. The ASCII rules are written out.
- Render: a name holding a NUL character is checked by libxml2 only up to the
  NUL. This is not modelled.
- An integer key is its decimal text. PHP stores a key such as `"0"` as the
  integer 0, and both give the element name `0`.
- SortByPriority: PHP's `usort` algorithm is not transcribed. The sort is a
  stable insertion sort, so ties keep their input order. The source promises
  no tie order.

## Findings

| source | as written | input that shows it | evidently intended | confidence | as-written member | corrected member |
|---|---|---|---|---|---|---|
| Generator.php:231-247 | The `usort` callback returns 1 whenever the left entry has no priority, even when the right entry has none either. | Two entries without `priority`: compare(a, b) = 1 and compare(b, a) = 1, so each claims to sort after the other. | Return 0 when neither entry has a priority, so the callback is the consistent ordering `usort` requires. | medium; not executed | `Priority.SourceCompareNotAntisymmetric` | `Priority.CompareConsistent` |
