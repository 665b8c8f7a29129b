/** The framework services and PHP built-ins the generator calls but does not
    define. Each is an uninterpreted function supplied by the caller. */
module Collaborators {
  import opened Values
  import opened Xml

  datatype Env = Env(
    /** `Url::to($x, true)`: an absolute URL for a URL string or a route array. */
    urlTo: Value -> string,
    /** `Generator::dateToW3C($d)` on a scalar: an epoch integer or a date
        string, formatted in the W3C date-time profile. */
    dateToW3C: string -> string,
    /** `date(DATE_W3C, $t)` on an epoch integer. */
    formatTime: int -> string,
    /** `time()` as read while writing the i-th sitemap reference of the index. */
    clock: nat -> int,
    /** The number PHP's `==` and `<` see in a priority value. */
    rank: Value -> real,
    /** libxml2's classification of name characters beyond ASCII. */
    names: WideChars
  )
}
