/**
 * The random helpers of internal/utils/random/random.go. The generators
 * themselves (math/rand and crypto/rand) are passed in as the values they
 * produce.
 */
module Random {

  type byte = bv8

  predicate IsDigit(c: char) {
    '0' <= c <= '9'
  }

  /**
   * `DigitString(len)`: a buffer of `len` bytes, filled index by index with
   * `byte(n + '0')` where `n` is the i-th draw of `rand.Intn(10)`.
   */
  method DigitString(len: nat, draws: seq<int>) returns (s: string)
    requires |draws| >= len
    requires forall i | 0 <= i < len :: 0 <= draws[i] < 10
    ensures |s| == len
    ensures forall i | 0 <= i < len :: IsDigit(s[i]) && s[i] as int - '0' as int == draws[i]
  {
    var buffer := new char[len];
    var i := 0;
    while i < len
      invariant 0 <= i <= len
      invariant forall k | 0 <= k < i :: buffer[k] as int == draws[k] + '0' as int
    {
      buffer[i] := (draws[i] + '0' as int) as char;
      i := i + 1;
    }
    s := buffer[..];
  }

  /**
   * `String(len)`: `len` bytes read from the cryptographic source, or the
   * empty string when that read fails.
   */
  function String(len: nat, readFailed: bool, source: seq<byte>): (r: seq<byte>)
    requires readFailed || |source| >= len
    ensures |r| == if readFailed then 0 else len
    ensures !readFailed ==> forall i | 0 <= i < len :: r[i] == source[i]
  {
    if readFailed then [] else source[..len]
  }
}
