/** The slice of PHP's dynamic value semantics the source depends on. */
module Php {
  import opened Strings

  /** A PHP scalar: the kinds an id, a flag or a property value take in the source. */
  datatype Value = Null | Bool(b: bool) | Int(i: int) | Str(s: string)

  /** The value converts to `false`: `!$v` holds, and so does the loose test `$v == false`. */
  predicate Falsy(v: Value) {
    match v
    case Null => true
    case Bool(b) => !b
    case Int(i) => i == 0
    case Str(s) => s == "" || s == "0"
  }

  predicate IsDigitChar(c: char) {
    '0' <= c <= '9'
  }

  /** The decimal digits of `n`, most significant first, as PHP prints an integer. */
  function NatToDecimal(n: nat): (r: string)
    ensures |r| > 0 && IsDigitChar(r[0])
    ensures forall i :: 0 <= i < |r| ==> IsDigitChar(r[i])
    decreases n
  {
    var d := ((n % 10) + '0' as int) as char;
    if n < 10 then [d] else NatToDecimal(n / 10) + [d]
  }

  /** PHP's conversion of a scalar to a string. */
  function ToStr(v: Value): string {
    match v
    case Null => ""
    case Bool(b) => if b then "1" else ""
    case Int(i) => if i < 0 then "-" + NatToDecimal(-i) else NatToDecimal(i)
    case Str(s) => s
  }

  function Min(a: int, b: int): int {
    if a <= b then a else b
  }

  /**
    * `strncmp(a, b, n) === 0`: the first `min(n, |a|, |b|)` characters agree and
    * both strings are cut at the same length by `n`.
    */
  predicate StrncmpEqual(a: string, b: string, n: nat) {
    var m := Min(n, Min(|a|, |b|));
    a[..m] == b[..m] && Min(n, |a|) == Min(n, |b|)
  }

  /** Comparing the first three characters with `"new"` is a case-sensitive prefix test. */
  lemma StrncmpNewIsPrefix(x: string)
    ensures StrncmpEqual(x, "new", 3) <==> IsPrefix("new", x)
  {
    if |x| >= 3 {
      assert Min(3, Min(|x|, 3)) == 3;
    }
  }

  /** The string form of an integer never starts with a letter. */
  lemma IntStringStartsWithDigitOrMinus(i: int)
    ensures |ToStr(Int(i))| > 0
    ensures IsDigitChar(ToStr(Int(i))[0]) || ToStr(Int(i))[0] == '-'
  {
  }
}
