/** Small shared vocabulary: an optional value, duplicate-free sequences and
    the handful of Java string operations the plugin relies on (trim,
    endsWith, lastIndexOf, equalsIgnoreCase on ASCII text). */
module Base {

  /** Java's nullable reference, made explicit. */
  datatype Option<+T> = None | Some(value: T) {
    function GetOr(default: T): T {
      match this
      case Some(v) => v
      case None => default
    }
  }

  /** `n` absent values: a Java array of references before anything is stored. */
  function Nones<T>(n: nat): (r: seq<Option<T>>)
    ensures |r| == n && forall i :: 0 <= i < n ==> r[i].None?
  {
    seq(n, _ => None)
  }

  /** No element occurs twice: the shape `List.contains`-guarded insertion keeps. */
  ghost predicate NoDup<T>(s: seq<T>) {
    forall i, j :: 0 <= i < j < |s| ==> s[i] != s[j]
  }

  /** Number of occurrences of `x` in `s`. */
  function Count<T(==)>(s: seq<T>, x: T): nat {
    if s == [] then 0 else (if s[0] == x then 1 else 0) + Count(s[1..], x)
  }

  /** Java's `Character` test used by `String.trim`: every char up to U+0020. */
  predicate IsTrimmed(c: char) {
    c <= ' '
  }

  /** Drops trimmed characters from the front. */
  function TrimStart(s: string): string {
    if s == [] || !IsTrimmed(s[0]) then s else TrimStart(s[1..])
  }

  /** Drops trimmed characters from the back. */
  function TrimEnd(s: string): string {
    if s == [] || !IsTrimmed(s[|s| - 1]) then s else TrimEnd(s[..|s| - 1])
  }

  /** `String.trim`: strips every character up to U+0020 from both ends. */
  function Trim(s: string): string {
    TrimEnd(TrimStart(s))
  }

  predicate EndsWith(s: string, suffix: string) {
    |suffix| <= |s| && s[|s| - |suffix|..] == suffix
  }

  /** `String.lastIndexOf(char)`: the greatest index holding `c`, or -1. */
  function LastIndexOf(s: string, c: char): (r: int)
    ensures -1 <= r < |s|
    ensures r >= 0 ==> s[r] == c
    ensures forall i :: r < i < |s| ==> s[i] != c
  {
    if s == [] then -1
    else if s[|s| - 1] == c then |s| - 1
    else LastIndexOf(s[..|s| - 1], c)
  }

  /** `String.indexOf(char)`: the least index holding `c`, or None. */
  function IndexOf(s: string, c: char): (r: Option<nat>)
    ensures r.Some? ==> r.value < |s| && s[r.value] == c
    ensures forall i :: 0 <= i < |s| && (r.None? || i < r.value) ==> s[i] != c
  {
    if s == [] then None
    else if s[0] == c then Some(0)
    else match IndexOf(s[1..], c)
      case None => None
      case Some(k) => Some(k + 1)
  }

  /** ASCII lower-casing: all that `equalsIgnoreCase` needs against a lower-case ASCII literal. */
  function LowerAscii(c: char): char {
    if 'A' <= c <= 'Z' then (c as int + 32) as char else c
  }

  predicate EqualsIgnoreCaseAscii(s: string, lower: string) {
    |s| == |lower| && forall i :: 0 <= i < |s| ==> LowerAscii(s[i]) == lower[i]
  }
}
