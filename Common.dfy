/** Values shared by the codec's components: bytes, optional values and
    results, the Java exceptions the components raise, and the Hadoop
    configuration they read their settings from. */
module Common {

  /** An unsigned octet, as stored in a Java `byte[]`. */
  newtype byte = x: int | 0 <= x < 256

  /** Java's `(byte) v` narrowing, read back as an unsigned octet. */
  function ToByte(v: int): byte
  {
    (v % 256) as byte
  }

  function Min(a: int, b: int): int
  {
    if a <= b then a else b
  }

  datatype Option<+T> = None | Some(value: T)

  datatype Result<+T, +E> = Ok(value: T) | Err(error: E)

  /** The Java exceptions that the components raise or rewrap. */
  datatype Exception =
    | IOException(message: string)
    | IOExceptionOf(cause: Exception)
    | RuntimeException(message: string)
    | RuntimeExceptionOf(cause: Exception)
    | UnsupportedOperationException(detail: Option<string>)
    | NullPointerException
    | NegativeArraySizeException
    | ArrayIndexOutOfBoundsException
    | NumberFormatException(input: string)
    | KeyNotFoundException(message: string)
    | KeyNotFoundExceptionOf(cause: Exception)
    | IncompatibleKeyException(message: string)
    | PGPException(message: string)
    | NoSuchProviderException(message: string)

  /** `Character.toUpperCase` restricted to the ASCII letters. */
  function UpperChar(c: char): char
  {
    if 'a' <= c <= 'z' then (c as int - 32) as char else c
  }

  /** `String.toUpperCase`, restricted to the ASCII letters. */
  function ToUpper(s: string): string
  {
    seq(|s|, i requires 0 <= i < |s| => UpperChar(s[i]))
  }

  /** `String.equalsIgnoreCase`, restricted to the ASCII letters. */
  predicate EqualsIgnoreCase(a: string, b: string)
  {
    ToUpper(a) == ToUpper(b)
  }

  /** A Hadoop `Configuration`: the string value of each key that is set. */
  type Configuration = map<string, string>

  /** `Configuration.get(name)`: the value, or Java's null. */
  function Get(conf: Configuration, name: string): Option<string>
  {
    if name in conf then Some(conf[name]) else None
  }

  /** `Configuration.get(name, defaultValue)`. */
  function GetOr(conf: Configuration, name: string, default: string): string
  {
    if name in conf then conf[name] else default
  }

  function DigitValue(c: char): int
  {
    c as int - '0' as int
  }

  /** The value of a non-empty string of decimal digits. */
  function DecimalValue(s: string): (v: nat)
    requires forall i :: 0 <= i < |s| ==> '0' <= s[i] <= '9'
  {
    if s == [] then 0 else DecimalValue(s[..|s| - 1]) * 10 + DigitValue(s[|s| - 1])
  }

  /** `Integer.parseInt(s)`: an optional sign followed by decimal digits
      whose value fits a 32-bit int; anything else fails with
      NumberFormatException. */
  function ParseInt(s: string): (r: Result<int, Exception>)
    ensures r.Err? ==> r.error == NumberFormatException(s)
  {
    var neg := |s| > 0 && s[0] == '-';
    var digits := if |s| > 0 && (s[0] == '-' || s[0] == '+') then s[1..] else s;
    if |digits| == 0 || exists i :: 0 <= i < |digits| && !('0' <= digits[i] <= '9') then
      Err(NumberFormatException(s))
    else
      var v: int := if neg then 0 - DecimalValue(digits) as int else DecimalValue(digits);
      if v < -0x8000_0000 || v > 0x7fff_ffff then Err(NumberFormatException(s)) else Ok(v)
  }

  /** `Configuration.getInt(name, defaultValue)`. */
  function GetInt(conf: Configuration, name: string, default: int): Result<int, Exception>
  {
    if name in conf then ParseInt(conf[name]) else Ok(default)
  }

  /** `Configuration.getBoolean(name, defaultValue)`: "true" or "false" in
      any case, else the default. */
  function GetBoolean(conf: Configuration, name: string, default: bool): bool
  {
    if name !in conf then default
    else if EqualsIgnoreCase(conf[name], "true") then true
    else if EqualsIgnoreCase(conf[name], "false") then false
    else default
  }

  /** `s` with the elements from index `at` on overwritten by `d`. */
  function Splice(s: seq<byte>, at: nat, d: seq<byte>): (r: seq<byte>)
    requires at + |d| <= |s|
    ensures |r| == |s|
  {
    s[..at] + d + s[at + |d|..]
  }

  /** Two adjacent splices are one splice of the concatenation. */
  lemma SpliceTwice(s: seq<byte>, at: nat, d1: seq<byte>, d2: seq<byte>)
    requires at + |d1| + |d2| <= |s|
    ensures Splice(Splice(s, at, d1), at + |d1|, d2) == Splice(s, at, d1 + d2)
  {
    var t := Splice(s, at, d1);
    assert t[..at + |d1|] == s[..at] + d1;
    assert t[at + |d1| + |d2|..] == s[at + |d1| + |d2|..];
  }

  /** What a splice leaves in front of and in place of the spliced part. */
  lemma SplicedPrefix(s: seq<byte>, at: nat, d: seq<byte>)
    requires at + |d| <= |s|
    ensures Splice(s, at, d)[..at + |d|] == s[..at] + d
  {
  }

  /** `System.arraycopy(src, srcPos, dst, dstPos, n)`: the copy behaves as if
      the source range were first copied to a temporary, so it is also right
      when `src` and `dst` are the same array. */
  method ArrayCopy(src: array<byte>, srcPos: nat, dst: array<byte>, dstPos: nat, n: nat)
    requires srcPos + n <= src.Length && dstPos + n <= dst.Length
    modifies dst
    ensures dst[dstPos..dstPos + n] == old(src[srcPos..srcPos + n])
    ensures dst[..dstPos] == old(dst[..dstPos]) && dst[dstPos + n..] == old(dst[dstPos + n..])
  {
    forall k | 0 <= k < n {
      dst[dstPos + k] := src[srcPos + k];
    }
  }

  /** Copies a byte sequence into `dst` at `dstPos`. */
  method CopyIn(data: seq<byte>, dst: array<byte>, dstPos: nat)
    requires dstPos + |data| <= dst.Length
    modifies dst
    ensures dst[dstPos..dstPos + |data|] == data
    ensures dst[..dstPos] == old(dst[..dstPos]) && dst[dstPos + |data|..] == old(dst[dstPos + |data|..])
  {
    forall k | 0 <= k < |data| {
      dst[dstPos + k] := data[k];
    }
  }

  /** A new array holding `s`. */
  method NewArray(s: seq<byte>) returns (a: array<byte>)
    ensures fresh(a) && a[..] == s
  {
    a := new byte[|s|](i requires 0 <= i < |s| => s[i]);
  }
}
