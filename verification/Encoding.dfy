/**
 Byte encodings hashed by Folderbase digests: fixed-width big-endian numbers and
 length-prefixed fields.  A byte is the character with its code.  Each encoder is shown to
 be prefix-injective: what follows it never changes how it is read back.
 */
module Encoding {

  type Bytes = string

  function Power256(width: nat): nat {
    if width == 0 then 1 else 256 * Power256(width - 1)
  }

  /** The low `width` bytes of a number, most significant first, as a truncating cast leaves them. */
  function BigEndian(n: nat, width: nat): (r: Bytes)
    ensures |r| == width
  {
    if width == 0 then "" else BigEndian(n / 256, width - 1) + [(n % 256) as char]
  }

  lemma {:induction false} BigEndianInjective(m: nat, n: nat, width: nat)
    requires m < Power256(width) && n < Power256(width) && BigEndian(m, width) == BigEndian(n, width)
    ensures m == n
  {
    if width > 0 {
      var a, b := BigEndian(m, width), BigEndian(n, width);
      assert a[..width - 1] == BigEndian(m / 256, width - 1) && b[..width - 1] == BigEndian(n / 256, width - 1);
      assert a[width - 1] == (m % 256) as char && b[width - 1] == (n % 256) as char;
      BigEndianInjective(m / 256, n / 256, width - 1);
    }
  }

  /** A field: its byte length in `width` bytes, then its bytes. */
  function Field(value: Bytes, width: nat): Bytes {
    BigEndian(|value|, width) + value
  }

  // Re-association, with the parts kept abstract.

  lemma Regroup2(a: Bytes, b: Bytes, x: Bytes)
    ensures (a + b) + x == a + (b + x)
  {}

  lemma Regroup3(a: Bytes, b: Bytes, c: Bytes, x: Bytes)
    ensures (a + (b + c)) + x == a + (b + (c + x))
  {
    Regroup2(a, b + c, x);
    Regroup2(b, c, x);
  }

  lemma Regroup4(a: Bytes, b: Bytes, c: Bytes, d: Bytes, x: Bytes)
    ensures (a + (b + (c + d))) + x == a + (b + (c + (d + x)))
  {
    Regroup2(a, b + (c + d), x);
    Regroup3(b, c, d, x);
  }

  lemma PrefixSplits(a: Bytes, b: Bytes, x: Bytes, y: Bytes)
    requires |a| == |b| && a + x == b + y
    ensures a == b && x == y
  {
    assert a == (a + x)[..|a|] && b == (b + y)[..|b|];
    assert x == (a + x)[|a|..] && y == (b + y)[|b|..];
  }

  lemma NumberPrefix(m: nat, n: nat, width: nat, x: Bytes, y: Bytes)
    requires m < Power256(width) && n < Power256(width)
    requires BigEndian(m, width) + x == BigEndian(n, width) + y
    ensures m == n && x == y
  {
    PrefixSplits(BigEndian(m, width), BigEndian(n, width), x, y);
    BigEndianInjective(m, n, width);
  }

  lemma FieldPrefix(a: Bytes, b: Bytes, width: nat, x: Bytes, y: Bytes)
    requires |a| < Power256(width) && |b| < Power256(width)
    requires Field(a, width) + x == Field(b, width) + y
    ensures a == b && x == y
  {
    assert Field(a, width) + x == BigEndian(|a|, width) + (a + x);
    assert Field(b, width) + y == BigEndian(|b|, width) + (b + y);
    NumberPrefix(|a|, |b|, width, a + x, b + y);
    PrefixSplits(a, b, x, y);
  }

  /** Fields one after the other. */
  function Fields(values: seq<Bytes>, width: nat): Bytes {
    if values == [] then "" else Field(values[0], width) + Fields(values[1..], width)
  }

  /** Equally many fields are read back one by one. */
  lemma {:induction false} FieldsPrefix(a: seq<Bytes>, b: seq<Bytes>, width: nat, x: Bytes, y: Bytes)
    requires |a| == |b|
    requires forall k :: 0 <= k < |a| ==> |a[k]| < Power256(width) && |b[k]| < Power256(width)
    requires Fields(a, width) + x == Fields(b, width) + y
    ensures a == b && x == y
  {
    if a != [] {
      assert Fields(a, width) + x == Field(a[0], width) + (Fields(a[1..], width) + x);
      assert Fields(b, width) + y == Field(b[0], width) + (Fields(b[1..], width) + y);
      FieldPrefix(a[0], b[0], width, Fields(a[1..], width) + x, Fields(b[1..], width) + y);
      FieldsPrefix(a[1..], b[1..], width, x, y);
      assert a == [a[0]] + a[1..] && b == [b[0]] + b[1..];
    } else {
      assert Fields(a, width) + x == x && Fields(b, width) + y == y;
    }
  }

  /** Items one after the other, each encoded by `encode`. */
  function Sequence<T>(items: seq<T>, encode: T -> Bytes): Bytes {
    if items == [] then "" else Sequence(items[..|items| - 1], encode) + encode(items[|items| - 1])
  }

  lemma {:induction false} SequenceFromFront<T>(items: seq<T>, encode: T -> Bytes)
    requires items != []
    ensures Sequence(items, encode) == encode(items[0]) + Sequence(items[1..], encode)
  {
    if |items| > 1 {
      var init := items[..|items| - 1];
      SequenceFromFront(init, encode);
      assert items[1..][..|items| - 2] == init[1..];
    } else {
      assert items[..0] == [];
    }
  }

  /** What follows an item never changes how the item is read back. */
  ghost predicate PrefixInjective<T(!new)>(encode: T -> Bytes, sound: T -> bool) {
    forall a, b, x, y {:trigger encode(a) + x, encode(b) + y} ::
      sound(a) && sound(b) && encode(a) + x == encode(b) + y ==> a == b && x == y
  }

  /** Equally many items are read back one by one. */
  lemma {:induction false} SequencePrefix<T(!new)>(a: seq<T>, b: seq<T>, encode: T -> Bytes, sound: T -> bool,
                                                   x: Bytes, y: Bytes)
    requires PrefixInjective(encode, sound) && |a| == |b|
    requires forall k :: 0 <= k < |a| ==> sound(a[k]) && sound(b[k])
    requires Sequence(a, encode) + x == Sequence(b, encode) + y
    ensures a == b && x == y
  {
    if a != [] {
      SequenceFromFront(a, encode);
      SequenceFromFront(b, encode);
      var restA, restB := Sequence(a[1..], encode) + x, Sequence(b[1..], encode) + y;
      Regroup2(encode(a[0]), Sequence(a[1..], encode), x);
      Regroup2(encode(b[0]), Sequence(b[1..], encode), y);
      assert restA == restB;
      SequencePrefix(a[1..], b[1..], encode, sound, x, y);
      assert a == [a[0]] + a[1..] && b == [b[0]] + b[1..];
    } else {
      assert Sequence(a, encode) + x == x && Sequence(b, encode) + y == y;
    }
  }

  // ---------- feeding a hasher ----------

  method HashFields(hashed: Bytes, values: seq<string>, width: nat) returns (r: Bytes)
    ensures r == hashed + Fields(values, width)
  {
    r := hashed;
    for k := 0 to |values|
      invariant r + Fields(values[k..], width) == hashed + Fields(values, width)
    {
      Regroup2(r, Field(values[k], width), Fields(values[k + 1..], width));
      assert values[k..][1..] == values[k + 1..];
      r := r + Field(values[k], width);
    }
    assert r + "" == r;
  }

  /** A count, then the items. */
  method HashSequence<T>(hashed: Bytes, items: seq<T>, encode: T -> Bytes, width: nat) returns (r: Bytes)
    ensures r == hashed + BigEndian(|items|, width) + Sequence(items, encode)
  {
    r := hashed + BigEndian(|items|, width);
    ghost var start := r;
    for k := 0 to |items|
      invariant r == start + Sequence(items[..k], encode)
    {
      assert items[..k + 1][..k] == items[..k];
      Regroup2(start, Sequence(items[..k], encode), encode(items[k]));
      r := r + encode(items[k]);
    }
    assert items[..|items|] == items;
  }

  // ---------- SHA-256 text ----------

  function Nibble(c: char): nat {
    if '0' <= c <= '9' then c as int - '0' as int else if 'a' <= c <= 'f' then c as int - 'a' as int + 10 else 0
  }

  predicate LowerHex(c: char) { '0' <= c <= '9' || 'a' <= c <= 'f' }

  predicate HexText(s: string) {
    forall k :: 0 <= k < |s| ==> LowerHex(s[k])
  }

  predicate Sha256Text(s: string) { |s| == 64 && HexText(s) }

  /** Two hexadecimal digits to a byte. */
  function DecodeHex(s: string): (r: Bytes)
    ensures |r| == |s| / 2
  {
    if |s| < 2 then "" else [(16 * Nibble(s[0]) + Nibble(s[1])) as char] + DecodeHex(s[2..])
  }

  lemma {:induction false} DecodeHexInjective(a: string, b: string)
    requires HexText(a) && HexText(b) && |a| % 2 == 0 && |a| == |b| && DecodeHex(a) == DecodeHex(b)
    ensures a == b
  {
    if a != "" {
      assert |a| >= 2;
      assert DecodeHex(a)[0] == DecodeHex(b)[0];
      assert DecodeHex(a)[1..] == DecodeHex(a[2..]) && DecodeHex(b)[1..] == DecodeHex(b[2..]);
      DecodeHexInjective(a[2..], b[2..]);
      assert a == [a[0], a[1]] + a[2..] && b == [b[0], b[1]] + b[2..];
    }
  }
}
