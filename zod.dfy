/** The building blocks the schemas share. A schema is a predicate over an input
    record whose fields already have the schema's base types: an absent optional
    field is `None`, a zod `number` is a `real`, and the format checks that rely on
    the platform (`url()`, `email()`) are supplied as predicates. */
module Zod {
  import opened Common

  /** The platform checks behind `z.string().url()` and `z.string().email()`. */
  datatype Formats = Formats(isUrl: string -> bool, isEmail: string -> bool)

  /** `.int()` */
  predicate IsInt(x: real) {
    x.Floor as real == x
  }

  /** `.min(lo).max(hi)` on a string's `length`, which counts UTF-16 code units. */
  predicate LengthIn(s: string, lo: nat, hi: nat) {
    lo <= Utf16Length(s) <= hi
  }

  /** `.min(n)` on a string. */
  predicate MinLength(s: string, n: nat) {
    Utf16Length(s) >= n
  }

  /** `.max(n)` on a string. */
  predicate MaxLength(s: string, n: nat) {
    Utf16Length(s) <= n
  }

  /** `.optional()` around a check. */
  predicate Opt<T>(o: Option<T>, ok: T -> bool) {
    o.None? || ok(o.value)
  }

  predicate IsHexDigit(c: char) {
    IsAsciiDigit(c) || 'a' <= c <= 'f' || 'A' <= c <= 'F'
  }

  /** `.uuid()`: five groups of 8, 4, 4, 4 and 12 hexadecimal digits, either case,
      separated by hyphens. */
  predicate IsUuid(s: string) {
    |s| == 36 &&
    forall i :: 0 <= i < 36 ==> if i == 8 || i == 13 || i == 18 || i == 23 then s[i] == '-' else IsHexDigit(s[i])
  }

  /** `.url().optional().or(z.literal(''))`: absent, empty, or a URL. */
  predicate UrlOrEmpty(f: Formats, o: Option<string>) {
    o.None? || o.value == "" || f.isUrl(o.value)
  }

  /** An integer order that is not negative (`.int().min(0)`). */
  predicate NonNegativeInt(x: real) {
    IsInt(x) && x >= 0.0
  }
}
