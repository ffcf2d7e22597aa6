/**
  C-level building blocks shared by the volume engine and the shell: bytes
  (a C++ `char`), byte strings (a `std::string`), `uint32_t` with its
  wrap-around, NUL-terminated C strings and the little-endian image of a
  `uint32_t`.
 */
module CBytes {

  type byte = b: int | 0 <= b < 256
  type Bytes = seq<byte>

  const U32_LIMIT: int := 0x1_0000_0000
  type u32 = x: int | 0 <= x < U32_LIMIT

  const NUL: byte := 0

  datatype Option<T> = None | Some(value: T)

  /** The bytes of an ASCII string literal. */
  function Ascii(s: string): Bytes
    requires forall i :: 0 <= i < |s| ==> s[i] as int < 256
  {
    seq(|s|, i requires 0 <= i < |s| => s[i] as int)
  }

  predicate NoNul(s: Bytes) {
    forall i :: 0 <= i < |s| ==> s[i] != NUL
  }

  /**
    The C string a byte buffer denotes: everything before the first NUL.
    This is what `std::string(buf)`, `strcmp` and `c_str()` see.
   */
  function CStr(s: Bytes): (r: Bytes)
    ensures NoNul(r) && r <= s
    ensures |r| < |s| ==> s[|r|] == NUL
  {
    if s == [] || s[0] == NUL then [] else [s[0]] + CStr(s[1..])
  }

  /** A C string is read back unchanged exactly when it holds no NUL. */
  lemma CStrIdentity(s: Bytes)
    ensures CStr(s) == s <==> NoNul(s)
  {
    if NoNul(s) {
      CStrOfTerminated(s, []);
      assert s + [] == s;
    }
  }

  /** A NUL-free string followed by a terminator (or nothing) reads back as itself. */
  lemma {:induction false} CStrOfTerminated(s: Bytes, t: Bytes)
    requires NoNul(s)
    requires t == [] || t[0] == NUL
    ensures CStr(s + t) == s
  {
    if s == [] {
      assert s + t == t;
    } else {
      assert (s + t)[0] == s[0] && (s + t)[1..] == s[1..] + t;
      CStrOfTerminated(s[1..], t);
      assert [s[0]] + s[1..] == s;
    }
  }

  /** `size_t` to `uint32_t` conversion. */
  function U32Of(n: nat): (r: u32)
    ensures n < U32_LIMIT ==> r == n
  {
    n % U32_LIMIT
  }

  /** `uint32_t` addition, which wraps modulo 2^32. */
  function AddU32(a: u32, b: u32): (r: u32)
    ensures a + b < U32_LIMIT ==> r == a + b
    ensures a + b >= U32_LIMIT ==> r == a + b - U32_LIMIT && r < a
  {
    (a + b) % U32_LIMIT
  }

  /** The in-memory image of a `uint32_t` on a little-endian machine. */
  function EncodeU32(x: u32): (b: Bytes)
    ensures |b| == 4
  {
    [x % 256, x / 256 % 256, x / 256 / 256 % 256, x / 256 / 256 / 256]
  }

  function DecodeU32(b: Bytes): u32
    requires |b| == 4
  {
    b[0] as int + 256 * (b[1] as int + 256 * (b[2] as int + 256 * b[3] as int))
  }

  lemma U32RoundTrip(x: u32)
    ensures DecodeU32(EncodeU32(x)) == x
  {
    var q1 := x / 256;
    var q2 := q1 / 256;
    var q3 := q2 / 256;
    assert x == x % 256 + 256 * q1;
    assert q1 == q1 % 256 + 256 * q2;
    assert q2 == q2 % 256 + 256 * q3;
  }
}
