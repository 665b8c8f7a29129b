/** PHP values as the sitemap data uses them: a URL descriptor, an image and a
    news block are associative arrays whose values are scalars or further
    arrays. An array is kept as its (key, value) pairs in insertion order;
    list arrays carry their decimal indices as keys. */
module Values {
  import opened Outcomes

  datatype Value = Scalar(text: string) | Map(fields: seq<Field>)

  datatype Field = Field(key: string, value: Value)

  /** One associative array. PHP never stores a key twice; see UniqueKeys. */
  type Hash = seq<Field>

  predicate UniqueKeys(h: Hash) {
    forall i, j :: 0 <= i < j < |h| ==> h[i].key != h[j].key
  }

  function Keys(h: Hash): (ks: seq<string>)
    ensures |ks| == |h|
    ensures forall i :: 0 <= i < |h| ==> ks[i] == h[i].key
  {
    seq(|h|, i requires 0 <= i < |h| => h[i].key)
  }

  /** Position of key `k` in `h`: the first field carrying it, if any. */
  function Find(h: Hash, k: string): (r: Option<nat>)
    ensures r.Some? ==> r.value < |h| && h[r.value].key == k
    ensures r.Some? ==> forall j :: 0 <= j < r.value ==> h[j].key != k
    ensures r.None? <==> forall j :: 0 <= j < |h| ==> h[j].key != k
  {
    if h == [] then None
    else if h[0].key == k then Some(0)
    else
      match Find(h[1..], k)
      case None => None
      case Some(j) => Some(j + 1)
  }

  /** `isset($h[$k])` (PHP null is not modelled, so presence is enough). */
  predicate Has(h: Hash, k: string) {
    Find(h, k).Some?
  }

  /** `$h[$k]` for a key that is present. */
  function Get(h: Hash, k: string): Value
    requires Has(h, k)
  {
    h[Find(h, k).value].value
  }

  /** `$h[$k] = $v` for a key that is present: the value is replaced in place,
      so the key keeps its position. */
  function Put(h: Hash, k: string, v: Value): (r: Hash)
    requires Has(h, k)
    ensures Keys(r) == Keys(h)
    ensures Has(r, k) && Get(r, k) == v
    ensures forall i :: 0 <= i < |h| && h[i].key != k ==> r[i] == h[i]
  {
    h[Find(h, k).value := Field(k, v)]
  }

  /** Lookups depend on the key sequence only. */
  lemma {:induction false} FindByKeys(a: Hash, b: Hash, k: string)
    requires Keys(a) == Keys(b)
    ensures Find(a, k) == Find(b, k)
  {
    if a != [] {
      assert a[0].key == Keys(a)[0] == Keys(b)[0] == b[0].key;
      assert Keys(a[1..]) == Keys(a)[1..] == Keys(b)[1..] == Keys(b[1..]);
      FindByKeys(a[1..], b[1..], k);
    }
  }

  /** Replacing a value keeps every other lookup as it was. */
  lemma PutOther(h: Hash, k: string, v: Value, k': string)
    requires Has(h, k) && k' != k
    ensures Has(Put(h, k, v), k') == Has(h, k')
    ensures Has(h, k') ==> Get(Put(h, k, v), k') == Get(h, k')
  {
    FindByKeys(Put(h, k, v), h, k');
  }

  /** Two arrays with the same keys that agree on the fields named `k` give
      the same lookup for `k`. */
  lemma GetAgrees(a: Hash, b: Hash, k: string)
    requires Keys(a) == Keys(b) && Has(a, k)
    requires forall i :: 0 <= i < |a| && a[i].key == k ==> a[i] == b[i]
    ensures Has(b, k) && Get(a, k) == Get(b, k)
  {
    FindByKeys(a, b, k);
  }
}
