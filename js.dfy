/** The few JavaScript runtime notions the application code relies on. */
module Js {
  import opened Wrappers

  /** A thrown value: `isError` says whether it is an `Error` instance, so that `name` and `message` apply. */
  datatype Exception = Exception(isError: bool, name: string, message: string)

  /** `error instanceof Error ? error.message : fallback`, the idiom every catch block uses. */
  function MessageOr(e: Exception, fallback: string): (m: string)
    ensures e.isError ==> m == e.message
    ensures !e.isError ==> m == fallback
  {
    if e.isError then e.message else fallback
  }

  /** JavaScript truthiness of an optional string: absent and the empty string are falsy. */
  predicate Truthy(s: Option<string>) {
    s.Some? && s.value != ""
  }

  /** The value of `s` where it is truthy and nothing otherwise: what `s && <show s>` displays, and what `s || null` keeps. */
  function IfTruthy(s: Option<string>): (r: Option<string>)
    ensures r.Some? <==> Truthy(s)
    ensures r.Some? ==> r == s
  {
    if Truthy(s) then s else None
  }

  /**
   * `a <= b` on strings, compared character by character with a prefix counting as smaller. JavaScript
   * compares UTF-16 code units instead; the two orders differ only between a character beyond U+FFFF
   * and one from U+E000 on, so for the key test against `'1'` and `'9'` and for ISO timestamps they agree.
   */
  predicate StringLessEq(a: string, b: string)
    decreases |a|
  {
    a == [] || (b != [] && (a[0] < b[0] || (a[0] == b[0] && StringLessEq(a[1..], b[1..]))))
  }

  /** `response.ok`: the status is in the 2xx range. */
  predicate IsOkStatus(status: nat) {
    200 <= status <= 299
  }

  /** `Math.min` and `Math.max` on integers. */
  function Min(a: int, b: int): int { if a <= b then a else b }
  function Max(a: int, b: int): int { if a >= b then a else b }
}
