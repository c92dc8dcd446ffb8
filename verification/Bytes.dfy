/** Bytes, big-endian integers, and the fixed-width text fields of a frame header. */
module Bytes {

  type byte = x: int | 0 <= x < 256

  datatype Option<+T> = None | Some(value: T)

  function One(b: bool): nat { if b then 1 else 0 }

  lemma Associative<T>(a: seq<T>, b: seq<T>, c: seq<T>)
    ensures (a + b) + c == a + (b + c)
  {}

  const TWO_32: nat := 0x1_0000_0000
  const TWO_64: nat := 0x1_0000_0000_0000_0000

  // ---------------------------------------------------------------- big-endian integers

  /** The low `width` bytes of `n`, most significant first: PutUint32 / PutUint64 after the
      conversion to the machine width. */
  function BigEndian(n: nat, width: nat): (s: seq<byte>)
    ensures |s| == width
  {
    if width == 0 then [] else BigEndian(n / 256, width - 1) + [n % 256]
  }

  /** Uint32 / Uint64 of a byte string. */
  function FromBigEndian(s: seq<byte>): nat {
    if s == [] then 0 else FromBigEndian(s[..|s| - 1]) * 256 + s[|s| - 1]
  }

  function Pow256(width: nat): (p: nat)
    ensures p > 0
  {
    if width == 0 then 1 else 256 * Pow256(width - 1)
  }

  lemma WordSizes()
    ensures Pow256(4) == TWO_32
    ensures Pow256(8) == TWO_64
  {
    assert Pow256(1) == 256;
    assert Pow256(2) == 0x1_0000;
    assert Pow256(4) == 0x1_0000 * 0x1_0000;
    assert Pow256(6) == 0x1_0000 * 0x1_0000_0000;
  }

  lemma ModSplit(n: nat, p: nat)
    requires p > 0
    ensures n / 256 % p * 256 + n % 256 == n % (256 * p)
  {
    var q, t, k := n / 256, n / 256 % p, n / 256 / p;
    assert q == p * k + t;
    assert n == 256 * (p * k + t) + n % 256;
    assert n == (256 * p) * k + (256 * t + n % 256);
    assert 256 * t + 256 <= 256 * p;
    RemainderUnique(n, 256 * p, k, 256 * t + n % 256);
  }

  lemma MulMonotone(d: nat, a: nat, b: nat)
    ensures a < b ==> d * a + d <= d * b
  {
    if a + 1 < b {
      MulMonotone(d, a, b - 1);
      assert d * b == d * (b - 1) + d;
    }
  }

  lemma RemainderUnique(n: nat, d: nat, k: nat, r: nat)
    requires n == d * k + r && r < d
    ensures n % d == r
  {
    var k', r' := n / d, n % d;
    assert n == d * k' + r';
    MulMonotone(d, k, k');
    MulMonotone(d, k', k);
  }

  /** Writing a number into `width` bytes and reading it back truncates it to that width. */
  lemma {:induction false} BigEndianRoundTrip(n: nat, width: nat)
    ensures FromBigEndian(BigEndian(n, width)) == n % Pow256(width)
  {
    if width > 0 {
      BigEndianRoundTrip(n / 256, width - 1);
      assert BigEndian(n, width)[..width - 1] == BigEndian(n / 256, width - 1);
      ModSplit(n, Pow256(width - 1));
    }
  }

  // ---------------------------------------------------------------- text fields

  function Zeros(n: nat): (s: seq<byte>)
    ensures |s| == n
  {
    seq(n, _ => 0)
  }

  function Take(s: seq<byte>, n: nat): (r: seq<byte>)
    ensures |r| <= n && r <= s
  {
    if |s| <= n then s else s[..n]
  }

  /** What `copy` leaves in a zeroed field of the given width. */
  function Field(s: seq<byte>, width: nat): (r: seq<byte>)
    ensures |r| == width
  {
    var t := Take(s, width);
    t + Zeros(width - |t|)
  }

  /** The bytes of `s` that are not zero, in order. */
  function NonZero(s: seq<byte>): (r: seq<byte>)
    ensures 0 !in r
    ensures |r| <= |s|
  {
    if s == [] then [] else
      (if s[0] != 0 then [s[0]] else []) + NonZero(s[1..])
  }

  /** What a text becomes by crossing the wire in a field of the given width. */
  function Project(s: seq<byte>, width: nat): seq<byte> {
    NonZero(Take(s, width))
  }

  lemma {:induction false} NonZeroConcat(s: seq<byte>, t: seq<byte>)
    ensures NonZero(s + t) == NonZero(s) + NonZero(t)
  {
    if s == [] {
      assert s + t == t;
    } else {
      var h := if s[0] != 0 then [s[0]] else [];
      calc {
        NonZero(s + t);
        { assert (s + t)[1..] == s[1..] + t; }
        h + NonZero(s[1..] + t);
        { NonZeroConcat(s[1..], t); }
        h + (NonZero(s[1..]) + NonZero(t));
        (h + NonZero(s[1..])) + NonZero(t);
      }
    }
  }

  lemma {:induction false} NonZeroZeros(n: nat)
    ensures NonZero(Zeros(n)) == []
  {
    if n > 0 {
      NonZeroZeros(n - 1);
      assert Zeros(n)[1..] == Zeros(n - 1);
    }
  }

  lemma {:induction false} NonZeroId(s: seq<byte>)
    ensures NonZero(s) == s <==> 0 !in s
  {
    if s != [] {
      NonZeroId(s[1..]);
      assert s == [s[0]] + s[1..];
      if s[0] == 0 {
        assert |NonZero(s)| < |s|;
      }
    }
  }

  /** Decoding a field after encoding it is `Project`. */
  lemma FieldRoundTrip(s: seq<byte>, width: nat)
    ensures NonZero(Field(s, width)) == Project(s, width)
  {
    var t := Take(s, width);
    NonZeroConcat(t, Zeros(width - |t|));
    NonZeroZeros(width - |t|);
    assert NonZero(t) + [] == NonZero(t);
  }

  /** `Project` is an idempotent projection, and it keeps exactly the texts that fit
      in the field and hold no zero byte. */
  lemma ProjectLaws(s: seq<byte>, width: nat)
    ensures Project(Project(s, width), width) == Project(s, width)
    ensures Project(s, width) == s <==> |s| <= width && 0 !in s
  {
    NonZeroId(Project(s, width));
    NonZeroId(s);
  }

  /** getValidByteToString: the loop that drops zero bytes. */
  method GetValidBytes(src: seq<byte>) returns (buf: seq<byte>)
    ensures buf == NonZero(src)
  {
    buf := [];
    for i := 0 to |src|
      invariant buf == NonZero(src[..i])
    {
      assert src[..i + 1] == src[..i] + [src[i]];
      NonZeroConcat(src[..i], [src[i]]);
      if src[i] != 0 {
        buf := buf + [src[i]];
      }
    }
    assert src[..|src|] == src;
  }
}
