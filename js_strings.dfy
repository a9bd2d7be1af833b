/** The few pieces of JavaScript string and value semantics the control relies on:
    an optional host value (`null`/`undefined` versus a value), `s.substring(0, n)`,
    `s.substring(n)` and the defaulting idiom `raw || ""`.
    Strings are sequences of UTF-16 code units in JavaScript; here they are `seq<char>`,
    and a length is the number of elements. */
module JsStrings {

  /** A host-supplied value that may be missing (`null`, `undefined`, or NaN for numbers). */
  datatype Option<+T> = None | Some(value: T)

  function Min(a: int, b: int): (m: int) {
    if a <= b then a else b
  }

  /** `s.substring(0, n)` for a non-negative `n`: the first `n` characters, or all of `s`
      when it is shorter. */
  function Take(s: string, n: nat): (r: string)
    ensures r <= s
    ensures |r| == Min(n, |s|)
  {
    if n < |s| then s[..n] else s
  }

  /** `s.substring(n)` for a non-negative `n`: what follows the first `n` characters,
      empty when `s` is not longer than `n`. */
  function Drop(s: string, n: nat): (r: string)
    ensures Take(s, n) + r == s
    ensures |r| == |s| - Min(n, |s|)
  {
    if n < |s| then s[n..] else ""
  }

  /** `raw || ""` on a host string: the value when it is truthy, "" otherwise. A missing
      value and the empty string are both falsy, so both give "". */
  function OrEmpty(raw: Option<string>): (r: string)
    ensures r == "" <==> raw == None || raw == Some("")
    ensures r != "" ==> raw == Some(r)
  {
    if raw.Some? then raw.value else ""
  }

  /** Cutting to `n` characters does nothing to a string that already fits. */
  lemma TakeFits(s: string, n: nat)
    requires |s| <= n
    ensures Take(s, n) == s
  {
  }

  /** Cutting twice to the same length is cutting once. */
  lemma TakeTwice(s: string, n: nat)
    ensures Take(Take(s, n), n) == Take(s, n)
  {
  }
}
