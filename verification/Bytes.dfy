/** Bytes, fixed-width integers, and the big-endian cursor codec shared by every wire format. */
module Bytes {

  type byte = n: int | 0 <= n < 0x100
  type u16 = n: int | 0 <= n < 0x1_0000
  type u32 = n: int | 0 <= n < 0x1_0000_0000
  type u64 = n: int | 0 <= n < 0x1_0000_0000_0000_0000

  type Bytes = seq<byte>

  datatype Option<+T> = None | Some(value: T)

  /** Why a decoder refused its input. */
  datatype DecodeError =
    | InvalidSerialization
    | UnknownOperationType(tag: byte)
    | UnknownValidatorAdminTag(tag: byte)

  datatype Result<+T, +E> = Success(value: T) | Failure(error: E) {
    predicate IsFailure() { Failure? }
    function PropagateFailure<U>(): Result<U, E>
      requires Failure?
    {
      Failure(error)
    }
    function Extract(): T
      requires Success?
    {
      value
    }
  }

  /** A decoded value together with the bytes the reader has left. */
  type Parsed<+T> = Result<(T, Bytes), DecodeError>

  // ---- Big-endian integers ----

  function Pow256(k: nat): (r: nat)
    ensures r > 0
  {
    if k == 0 then 1 else 256 * Pow256(k - 1)
  }

  /** The `k` low bytes of `n`, most significant first. */
  function Be(n: nat, k: nat): (r: Bytes)
    ensures |r| == k
  {
    if k == 0 then [] else Be(n / 256, k - 1) + [n % 256]
  }

  function FromBe(s: Bytes): nat {
    if |s| == 0 then 0 else FromBe(s[..|s| - 1]) * 256 + s[|s| - 1]
  }

  lemma {:induction false} FromBeOfBe(n: nat, k: nat)
    requires n < Pow256(k)
    ensures FromBe(Be(n, k)) == n
  {
    if k > 0 {
      FromBeOfBe(n / 256, k - 1);
      assert Be(n, k)[..k - 1] == Be(n / 256, k - 1);
    }
  }

  lemma {:induction false} BeOfFromBe(s: Bytes)
    ensures FromBe(s) < Pow256(|s|)
    ensures Be(FromBe(s), |s|) == s
  {
    if |s| > 0 {
      var front, last := s[..|s| - 1], s[|s| - 1];
      BeOfFromBe(front);
      assert (FromBe(front) * 256 + last) / 256 == FromBe(front);
      assert s == front + [last];
    }
  }

  lemma Widths()
    ensures Pow256(1) == 0x100
    ensures Pow256(2) == 0x1_0000
    ensures Pow256(4) == 0x1_0000_0000
    ensures Pow256(8) == 0x1_0000_0000_0000_0000
  {
    assert Pow256(2) == 256 * Pow256(1);
    assert Pow256(3) == 256 * Pow256(2);
    assert Pow256(4) == 256 * Pow256(3);
    assert Pow256(5) == 256 * Pow256(4);
    assert Pow256(6) == 256 * Pow256(5);
    assert Pow256(7) == 256 * Pow256(6);
    assert Pow256(8) == 256 * Pow256(7);
  }

  function U16(v: u16): (r: Bytes) ensures |r| == 2 { Be(v, 2) }
  function U32(v: u32): (r: Bytes) ensures |r| == 4 { Be(v, 4) }
  function U64(v: u64): (r: Bytes) ensures |r| == 8 { Be(v, 8) }

  function FromU64(s: Bytes): (v: u64)
    requires |s| == 8
    ensures U64(v) == s
  {
    BeOfFromBe(s);
    Widths();
    FromBe(s)
  }

  lemma U64RoundTrip(v: u64)
    ensures FromU64(U64(v)) == v
  {
    Widths();
    FromBeOfBe(v, 8);
  }

  lemma U64Injective(v: u64, w: u64)
    requires U64(v) == U64(w)
    ensures v == w
  {
    U64RoundTrip(v);
    U64RoundTrip(w);
  }

  function Bool(b: bool): (r: Bytes) ensures |r| == 1 { [if b then 1 else 0] }

  // ---- Reads: a value and the bytes behind it, or an error ----

  function ReadU8(s: Bytes): (r: Parsed<byte>)
    ensures r.Success? ==> |s| == 1 + |r.value.1|
  {
    if |s| == 0 then Failure(InvalidSerialization) else Success((s[0], s[1..]))
  }

  function ReadFixed(s: Bytes, n: nat): (r: Parsed<Bytes>)
    ensures r.Success? <==> n <= |s|
    ensures r.Success? ==> |r.value.0| == n && |s| == n + |r.value.1|
  {
    if |s| < n then Failure(InvalidSerialization) else Success((s[..n], s[n..]))
  }

  function ReadU16(s: Bytes): (r: Parsed<u16>)
    ensures r.Success? ==> |s| == 2 + |r.value.1|
  {
    var (b, rest) :- ReadFixed(s, 2);
    BeOfFromBe(b);
    Widths();
    Success((FromBe(b), rest))
  }

  function ReadU32(s: Bytes): (r: Parsed<u32>)
    ensures r.Success? ==> |s| == 4 + |r.value.1|
  {
    var (b, rest) :- ReadFixed(s, 4);
    BeOfFromBe(b);
    Widths();
    Success((FromBe(b), rest))
  }

  function ReadU64(s: Bytes): (r: Parsed<u64>)
    ensures r.Success? ==> |s| == 8 + |r.value.1|
  {
    var (b, rest) :- ReadFixed(s, 8);
    Success((FromU64(b), rest))
  }

  /** Any non-zero byte reads as true. */
  function ReadBool(s: Bytes): (r: Parsed<bool>)
    ensures r.Success? ==> |s| == 1 + |r.value.1|
  {
    var (v, rest) :- ReadU8(s);
    Success((v != 0, rest))
  }

  /** Concatenation is associative; stated as a rewrite towards the right. */
  lemma Assoc()
    ensures forall a: Bytes, b: Bytes, c: Bytes {:trigger (a + b) + c} :: (a + b) + c == a + (b + c)
  {
  }

  /** Every primitive read takes back exactly what was put in front of the remaining bytes. */
  lemma Reads()
    ensures forall v: byte, r: Bytes {:trigger [v] + r} :: ReadU8([v] + r) == Success((v, r))
    ensures forall v: u16, r: Bytes {:trigger U16(v) + r} :: ReadU16(U16(v) + r) == Success((v, r))
    ensures forall v: u32, r: Bytes {:trigger U32(v) + r} :: ReadU32(U32(v) + r) == Success((v, r))
    ensures forall v: u64, r: Bytes {:trigger U64(v) + r} :: ReadU64(U64(v) + r) == Success((v, r))
    ensures forall v: bool, r: Bytes {:trigger Bool(v) + r} :: ReadBool(Bool(v) + r) == Success((v, r))
  {
    Widths();
    forall v: byte, r: Bytes
      ensures ReadU8([v] + r) == Success((v, r))
    {
      assert ([v] + r)[1..] == r;
    }
    forall v: u16, r: Bytes
      ensures ReadU16(U16(v) + r) == Success((v, r))
    {
      Front(U16(v), r);
      FromBeOfBe(v, 2);
    }
    forall v: u32, r: Bytes
      ensures ReadU32(U32(v) + r) == Success((v, r))
    {
      Front(U32(v), r);
      FromBeOfBe(v, 4);
    }
    forall v: u64, r: Bytes
      ensures ReadU64(U64(v) + r) == Success((v, r))
    {
      Front(U64(v), r);
      U64RoundTrip(v);
    }
    forall v: bool, r: Bytes
      ensures ReadBool(Bool(v) + r) == Success((v, r))
    {
      assert (Bool(v) + r)[1..] == r;
    }
  }

  lemma Front(a: Bytes, r: Bytes)
    ensures ReadFixed(a + r, |a|) == Success((a, r))
  {
    assert (a + r)[..|a|] == a && (a + r)[|a|..] == r;
  }

  // ---- UTF-8 ----

  predicate Utf8(s: Bytes) { Utf8From(s, 0) }

  /** Well-formed UTF-8 from byte `i` on (table 3-7 of the Unicode standard), as `String::from_utf8` checks it. */
  predicate Utf8From(s: Bytes, i: nat)
    decreases |s| - i
  {
    if i >= |s| then i == |s|
    else if s[i] < 0x80 then Utf8From(s, i + 1)
    else if 0xC2 <= s[i] < 0xE0 then Tails(s, i, 1) && Utf8From(s, i + 2)
    else if 0xE0 <= s[i] < 0xF0 then
      && Tails(s, i, 2)
      && (s[i] == 0xE0 ==> s[i + 1] >= 0xA0) && (s[i] == 0xED ==> s[i + 1] < 0xA0)
      && Utf8From(s, i + 3)
    else if 0xF0 <= s[i] < 0xF5 then
      && Tails(s, i, 3)
      && (s[i] == 0xF0 ==> s[i + 1] >= 0x90) && (s[i] == 0xF4 ==> s[i + 1] < 0x90)
      && Utf8From(s, i + 4)
    else false
  }

  /** Byte `i` is followed by `n` continuation bytes. */
  predicate Tails(s: Bytes, i: nat, n: nat) {
    i + n < |s| && forall j | i < j <= i + n :: 0x80 <= s[j] < 0xC0
  }
}
