/** Option and Result shapes shared by the sitemap model, and the ways a
    render can fail. */
module Outcomes {

  datatype Option<+T> = None | Some(value: T)

  /** Why a render aborts. The framework's error handler turns PHP notices and
      warnings into exceptions, so each of these stops the whole render: there
      is no partial result. */
  datatype Error =
    | MissingLoc        // an entry without a 'loc' key (undefined index)
    | BadLastmod        // 'lastmod' holds an array, which the date parser refuses
    | ImagesNotArray    // 'images' holds a scalar, which array_map refuses
    | ImageNotArray     // one image is a scalar, so it has no 'loc' offset
    | MissingImageLoc   // one image without a 'loc' key (undefined index)
    | DivisionByZero    // maxSectionUrl is 0
    | InvalidName       // an element name that is not an XML Name, which XMLWriter refuses

  datatype Result<+T> = Ok(value: T) | Err(error: Error)

  /** `array_map` with a callback that may throw: the callback runs on the
      elements in order and the first failure aborts the whole map. */
  function Traverse<A, B>(f: A -> Result<B>, s: seq<A>): (r: Result<seq<B>>)
    ensures r.Ok? <==> forall i :: 0 <= i < |s| ==> f(s[i]).Ok?
    ensures r.Ok? ==> |r.value| == |s|
    ensures r.Ok? ==> forall i :: 0 <= i < |s| ==> r.value[i] == f(s[i]).value
    ensures r.Err? ==>
      exists i :: 0 <= i < |s| && f(s[i]).Err? && r.error == f(s[i]).error
        && forall j :: 0 <= j < i ==> f(s[j]).Ok?
  {
    if s == [] then Ok([])
    else
      match f(s[0])
      case Err(e) => Err(e)
      case Ok(b) =>
        match Traverse(f, s[1..])
        case Err(e) =>
          assert forall j :: 1 <= j < |s| ==> s[j] == s[1..][j - 1];
          Err(e)
        case Ok(bs) => Ok([b] + bs)
  }
}
