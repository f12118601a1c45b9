/** JavaScript value conventions the request handlers rely on.

    A field of a JSON request body is either absent (`undefined`) or carries a
    value of the column's type: `Option<T>`.  The handlers test such fields in
    two different ways, and the difference matters: `if (x)` (truthiness, where
    `""`, `0` and `false` count as missing) and `x !== undefined` (presence).
    Arrays are always truthy, even when empty. */
module Js {

  datatype Option<+T> = None | Some(value: T)

  /** `if (s)` on a string field: present and non-empty. */
  predicate Truthy(s: Option<string>) {
    s.Some? && s.value != ""
  }

  /** `if (n)` on a numeric field: present and non-zero. */
  predicate TruthyNum(n: Option<int>) {
    n.Some? && n.value != 0
  }

  /** `s || d` on a string field. */
  function StrOr(s: Option<string>, d: string): string {
    if Truthy(s) then s.value else d
  }

  /** `n || d` on a numeric field. */
  function NumOr(n: Option<int>, d: int): int {
    if TruthyNum(n) then n.value else d
  }

  /** `b || false` on a boolean field. */
  function FlagOrFalse(b: Option<bool>): bool {
    b == Some(true)
  }

  /** `s || null` on a string field. */
  function StrOrNull(s: Option<string>): Option<string> {
    if Truthy(s) then s else None
  }

  /** `v !== undefined ? v : d`, and `xs || d` on an array field (arrays are truthy). */
  function DefinedOr<T>(v: Option<T>, d: T): T {
    if v.Some? then v.value else d
  }

  /** `s.startsWith(prefix)`. */
  predicate StartsWith(s: string, prefix: string) {
    |prefix| <= |s| && s[..|prefix|] == prefix
  }

  /** `s.split(sep)` for a one-character separator: the pieces between separators, at least one, possibly empty. */
  function Split(s: string, sep: char): (parts: seq<string>)
    ensures |parts| >= 1
    ensures forall i :: 0 <= i < |parts| ==> sep !in parts[i]
    decreases |s|
  {
    if s == [] then [[]]
    else
      var rest := Split(s[1..], sep);
      if s[0] == sep then [[]] + rest
      else [[s[0]] + rest[0]] + rest[1..]
  }

  /** `parts.join(sep)`. */
  function Join(parts: seq<string>, sep: char): string
    requires |parts| >= 1
  {
    if |parts| == 1 then parts[0] else parts[0] + [sep] + Join(parts[1..], sep)
  }
}
