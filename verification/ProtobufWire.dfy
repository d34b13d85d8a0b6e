/**
  The wire format under the RPC headers: sections "Base 128 Varints", "Message Structure" and
  "Length-Delimited Records" of the Protocol Buffers Encoding specification, and the UTF-8 of section 4
  of RFC 3629. Reading takes a value off the front of a byte string.
 */
module ProtobufWire {
  type Byte = b: int | 0 <= b < 0x100
  type Bytes = seq<Byte>

  const TWO_31: int := 0x8000_0000
  const TWO_32: int := 0x1_0000_0000
  const TWO_64: int := 0x1_0000_0000_0000_0000

  datatype Read<T> = Got(value: T, rest: Bytes) | Malformed

  // ----- Base 128 varints -----

  function WriteVarint(n: nat): Bytes {
    if n < 128 then [n] else [n % 128 + 128] + WriteVarint(n / 128)
  }

  /** At most `k` bytes, the lowest seven bits first; the last byte has its top bit clear. */
  function ReadGroups(bytes: Bytes, k: nat): Read<nat> {
    if k == 0 || bytes == [] then Malformed
    else if bytes[0] < 128 then Got(bytes[0], bytes[1..])
    else
      match ReadGroups(bytes[1..], k - 1)
      case Got(high, rest) => Got(bytes[0] - 128 + 128 * high, rest)
      case Malformed => Malformed
  }

  const MAX_VARINT_BYTES: nat := 10

  /** A varint read as a 64-bit or a 32-bit number: what does not fit is dropped. */
  function ReadVarint(bytes: Bytes, modulus: nat): Read<nat>
    requires modulus > 0
  {
    match ReadGroups(bytes, MAX_VARINT_BYTES)
    case Got(n, rest) => Got(n % modulus, rest)
    case Malformed => Malformed
  }

  function Pow128(k: nat): nat {
    if k == 0 then 1 else 128 * Pow128(k - 1)
  }

  lemma {:induction false} GroupsRoundTrip(n: nat, k: nat, rest: Bytes)
    requires k >= 1 && n < Pow128(k)
    ensures ReadGroups(WriteVarint(n) + rest, k) == Got(n, rest)
    ensures |WriteVarint(n)| <= k
  {
    var w := WriteVarint(n) + rest;
    if n < 128 {
      assert w[1..] == rest;
    } else {
      assert w[1..] == WriteVarint(n / 128) + rest;
      GroupsRoundTrip(n / 128, k - 1, rest);
    }
  }

  /** The seven low bits of each byte, the first byte the lowest. */
  function GroupSum(b: Bytes): nat {
    if b == [] then 0 else GroupSum(b[..|b| - 1]) + b[|b| - 1] % 128 * Pow128(|b| - 1)
  }

  /** All bytes but the last have the top bit set. */
  ghost predicate IsVarint(b: Bytes) {
    b != [] && b[|b| - 1] < 128 && forall i :: 0 <= i < |b| - 1 ==> b[i] >= 128
  }

  lemma {:induction false} GroupSumPrepend(x: Byte, b: Bytes)
    ensures GroupSum([x] + b) == x % 128 + 128 * GroupSum(b)
  {
    var w := [x] + b;
    if b == [] {
      assert w[..0] == [];
    } else {
      GroupSumPrepend(x, b[..|b| - 1]);
      assert w[..|w| - 1] == [x] + b[..|b| - 1];
      PowerStep(b[|b| - 1] % 128, |b|);
    }
  }

  lemma PowerStep(a: nat, k: nat)
    requires k > 0
    ensures a * Pow128(k) == 128 * (a * Pow128(k - 1))
  {
    var p := Pow128(k - 1);
    assert Pow128(k) == 128 * p;
    assert a * (128 * p) == 128 * (a * p);
  }

  /** A number is written as its groups of seven bits. */
  lemma {:induction false} VarintValue(n: nat)
    ensures IsVarint(WriteVarint(n)) && GroupSum(WriteVarint(n)) == n
  {
    if n < 128 {
      GroupSumPrepend(n, []);
      SmallMod(n, 128);
    } else {
      VarintValue(n / 128);
      PrependVarint(n % 128 + 128, WriteVarint(n / 128));
      LowGroup(n);
    }
  }

  lemma LowGroup(n: nat)
    ensures (n % 128 + 128) % 128 + 128 * (n / 128) == n
  {
  }

  lemma PrependVarint(x: Byte, b: Bytes)
    requires IsVarint(b) && x >= 128
    ensures IsVarint([x] + b) && GroupSum([x] + b) == x % 128 + 128 * GroupSum(b)
  {
    GroupSumPrepend(x, b);
  }

  /** A varint of at most `k` bytes at the front is read as the number that its groups make up, and nothing else is
      read. */
  lemma {:induction false} GroupsRead(b: Bytes, rest: Bytes, k: nat)
    requires IsVarint(b)
    ensures ReadGroups(b + rest, k) == if |b| <= k then Got(GroupSum(b), rest) else Malformed
  {
    if k > 0 {
      var w, high := b + rest, b[1..];
      assert b == [b[0]] + high && w[0] == b[0] && w[1..] == high + rest;
      GroupSumPrepend(b[0], high);
      if high == [] {
        assert w[1..] == rest;
        SmallMod(b[0], 128);
      } else {
        GroupsRead(high, rest, k - 1);
        TopBit(b[0]);
      }
    }
  }

  lemma TopBit(x: Byte)
    requires x >= 128
    ensures x % 128 == x - 128
  {
  }

  lemma {:induction false} NoVarintRead(b: Bytes, k: nat)
    requires forall i :: 0 <= i < |b| ==> b[i] >= 128
    ensures ReadGroups(b, k) == Malformed
  {
    if b != [] && k > 0 {
      NoVarintRead(b[1..], k - 1);
    }
  }

  lemma Pow128Values()
    ensures Pow128(9) == 0x8000_0000_0000_0000 && Pow128(10) == 0x40_0000_0000_0000_0000
  {
    assert Pow128(1) == 0x80 * Pow128(0);
    assert Pow128(2) == 0x4000;
    assert Pow128(3) == 0x20_0000;
    assert Pow128(4) == 0x1000_0000;
    assert Pow128(5) == 0x8_0000_0000;
    assert Pow128(6) == 0x400_0000_0000;
    assert Pow128(7) == 0x2_0000_0000_0000;
    assert Pow128(8) == 0x100_0000_0000_0000;
    assert Pow128(9) == 0x8000_0000_0000_0000;
  }

  lemma SmallMod(n: nat, m: nat)
    requires n < m
    ensures n % m == n
  {
  }

  lemma VarintRoundTrip(n: nat, modulus: nat, rest: Bytes)
    requires n < modulus <= TWO_64
    ensures ReadVarint(WriteVarint(n) + rest, modulus) == Got(n, rest)
    ensures 1 <= |WriteVarint(n)| <= MAX_VARINT_BYTES
  {
    hide WriteVarint, ReadGroups, Pow128;
    Pow128Values();
    SmallMod(n, modulus);
    VarintNotEmpty(n);
    GroupsRoundTrip(n, MAX_VARINT_BYTES, rest);
  }

  lemma {:induction false} ReadGroupsShortens(bytes: Bytes, k: nat)
    ensures var r := ReadGroups(bytes, k); r.Got? ==> |r.rest| < |bytes|
  {
    if k > 0 && bytes != [] && bytes[0] >= 128 {
      ReadGroupsShortens(bytes[1..], k - 1);
    }
  }

  lemma ReadShortens(bytes: Bytes, modulus: nat)
    requires modulus > 0
    ensures var r := ReadVarint(bytes, modulus); r.Got? ==> |r.rest| < |bytes|
  {
    ReadGroupsShortens(bytes, MAX_VARINT_BYTES);
  }

  lemma VarintNotEmpty(n: nat)
    ensures |WriteVarint(n)| >= 1
  {
  }

  /** The number of bytes of a 32-bit number. */
  function VarintSize32(n: nat): nat {
    if n < 0x80 then 1
    else if n < 0x4000 then 2
    else if n < 0x20_0000 then 3
    else if n < 0x1000_0000 then 4
    else 5
  }

  lemma VarintSize32IsLength(n: nat)
    requires n < TWO_32
    ensures VarintSize32(n) == |WriteVarint(n)|
  {
    if n >= 0x80 {
      var a := n / 128;
      assert |WriteVarint(n)| == 1 + |WriteVarint(a)|;
      if a >= 0x80 {
        var b := a / 128;
        assert |WriteVarint(a)| == 1 + |WriteVarint(b)|;
        if b >= 0x80 {
          var c := b / 128;
          assert |WriteVarint(b)| == 1 + |WriteVarint(c)|;
          assert c >= 0x80 ==> |WriteVarint(c)| == 1 + |WriteVarint(c / 128)| == 2;
        }
      }
    }
  }

  // ----- int32: sign-extended to 64 bits -----

  predicate IsInt32(v: int) {
    -TWO_31 <= v < TWO_31
  }

  function ToInt32(n: int): (v: int)
    ensures IsInt32(v)
  {
    var u := n % TWO_32;
    if u < TWO_31 then u else u - TWO_32
  }

  function WriteInt32(v: int): Bytes
    requires IsInt32(v)
  {
    WriteVarint(if v < 0 then v + TWO_64 else v)
  }

  function ReadInt32(bytes: Bytes): Read<int> {
    match ReadVarint(bytes, TWO_64)
    case Got(n, rest) => Got(ToInt32(n), rest)
    case Malformed => Malformed
  }

  lemma Int32RoundTrip(v: int, rest: Bytes)
    requires IsInt32(v)
    ensures ReadInt32(WriteInt32(v) + rest) == Got(v, rest)
    ensures WriteInt32(v) != []
  {
    ToInt32Undoes(v);
    hide ToInt32, ReadVarint, WriteVarint;
    VarintRoundTrip(if v < 0 then v + TWO_64 else v, TWO_64, rest);
  }

  lemma ToInt32Undoes(v: int)
    requires IsInt32(v)
    ensures ToInt32(if v < 0 then v + TWO_64 else v) == v
  {
  }

  function Int32Size(v: int): nat
    requires IsInt32(v)
  {
    if v < 0 then 10 else VarintSize32(v)
  }

  lemma {:induction false} LongVarint(n: nat, k: nat)
    requires n >= Pow128(k)
    ensures |WriteVarint(n)| > k
  {
    if k > 0 {
      assert n >= 128 by {
        Pow128Positive(k - 1);
      }
      LongVarint(n / 128, k - 1);
    }
  }

  lemma {:induction false} Pow128Positive(k: nat)
    ensures Pow128(k) >= 1
  {
    if k > 0 {
      Pow128Positive(k - 1);
    }
  }

  lemma Int32SizeIsLength(v: int)
    requires IsInt32(v)
    ensures Int32Size(v) == |WriteInt32(v)|
  {
    if v < 0 {
      hide Pow128;
      Pow128Values();
      LongVarint(v + TWO_64, 9);
      VarintRoundTrip(v + TWO_64, TWO_64, []);
    } else {
      VarintSize32IsLength(v);
    }
  }

  // ----- UTF-8 -----

  predicate Tail(b: Byte) {
    0x80 <= b <= 0xBF
  }

  /** The length of the well-formed character at the front, 0 if there is none. */
  function CharLength(s: Bytes): (n: nat)
    requires s != []
    ensures n <= |s|
  {
    if s[0] <= 0x7F then 1
    else if |s| >= 2 && 0xC2 <= s[0] <= 0xDF && Tail(s[1]) then 2
    else if |s| >= 3 && Tail(s[2])
            && ((s[0] == 0xE0 && 0xA0 <= s[1] <= 0xBF) || (0xE1 <= s[0] <= 0xEC && Tail(s[1]))
                || (s[0] == 0xED && 0x80 <= s[1] <= 0x9F) || (0xEE <= s[0] <= 0xEF && Tail(s[1]))) then 3
    else if |s| >= 4 && Tail(s[2]) && Tail(s[3])
            && ((s[0] == 0xF0 && 0x90 <= s[1] <= 0xBF) || (0xF1 <= s[0] <= 0xF3 && Tail(s[1]))
                || (s[0] == 0xF4 && 0x80 <= s[1] <= 0x8F)) then 4
    else 0
  }

  predicate ValidUtf8(s: Bytes) {
    s == [] || (CharLength(s) > 0 && ValidUtf8(s[CharLength(s)..]))
  }

  /** The numbers that are characters: those up to U+10FFFF but for the surrogates. */
  predicate IsScalar(c: int) {
    0 <= c <= 0xD7FF || 0xE000 <= c <= 0x10FFFF
  }

  /** The table of section 3 of RFC 3629. */
  function EncodeScalar(c: int): (b: Bytes)
    requires IsScalar(c)
    ensures 1 <= |b| <= 4
  {
    if c < 0x80 then [c]
    else if c < 0x800 then [0xC0 + c / 64, 0x80 + c % 64]
    else if c < 0x1_0000 then [0xE0 + c / 4096, 0x80 + c / 64 % 64, 0x80 + c % 64]
    else [0xF0 + c / 262144, 0x80 + c / 4096 % 64, 0x80 + c / 64 % 64, 0x80 + c % 64]
  }

  ghost predicate AreScalars(cs: seq<int>) {
    forall i :: 0 <= i < |cs| ==> IsScalar(cs[i])
  }

  ghost function EncodeText(cs: seq<int>): Bytes
    requires AreScalars(cs)
  {
    if cs == [] then [] else EncodeScalar(cs[0]) + EncodeText(cs[1..])
  }

  lemma ScalarIsChar(c: int, rest: Bytes)
    requires IsScalar(c)
    ensures CharLength(EncodeScalar(c) + rest) == |EncodeScalar(c)|
  {
    var b := EncodeScalar(c);
    LeadBytes(c);
    hide EncodeScalar;
    var s := b + rest;
    assert forall i :: 0 <= i < |b| ==> s[i] == b[i];
  }

  /** The first bytes that the table allows, and those behind them. */
  lemma LeadBytes(c: int)
    requires IsScalar(c)
    ensures var b := EncodeScalar(c);
            match |b|
            case 1 => b[0] <= 0x7F
            case 2 => 0xC2 <= b[0] <= 0xDF && Tail(b[1])
            case 3 =>
              && 0xE0 <= b[0] <= 0xEF && Tail(b[1]) && Tail(b[2])
              && (b[0] == 0xE0 ==> b[1] >= 0xA0) && (b[0] == 0xED ==> b[1] <= 0x9F)
            case _ =>
              && 0xF0 <= b[0] <= 0xF4 && Tail(b[1]) && Tail(b[2]) && Tail(b[3])
              && (b[0] == 0xF0 ==> b[1] >= 0x90) && (b[0] == 0xF4 ==> b[1] <= 0x8F)
  {
    if c >= 0x1_0000 {
      assert c / 4096 % 64 == c / 4096 - 64 * (c / 262144);
    } else if c >= 0x800 {
      assert c / 64 % 64 == c / 64 - 64 * (c / 4096);
    }
  }

  lemma CharIsScalar(s: Bytes) returns (c: int)
    requires s != [] && CharLength(s) > 0
    ensures IsScalar(c) && s[..CharLength(s)] == EncodeScalar(c)
  {
    match CharLength(s) {
      case 1 =>
        c := s[0];
      case 2 =>
        c := TwoBytes(s[0], s[1]);
      case 3 =>
        c := ThreeBytes(s[0], s[1], s[2]);
      case _ =>
        c := FourBytes(s[0], s[1], s[2], s[3]);
    }
  }

  lemma TwoBytes(a: Byte, b: Byte) returns (c: int)
    requires 0xC2 <= a <= 0xDF && Tail(b)
    ensures IsScalar(c) && EncodeScalar(c) == [a, b]
  {
    c := 64 * (a - 0xC0) + (b - 0x80);
    assert c / 64 == a - 0xC0 && c % 64 == b - 0x80;
  }

  lemma ThreeBytes(a: Byte, b: Byte, d: Byte) returns (c: int)
    requires 0xE0 <= a <= 0xEF && Tail(b) && Tail(d)
    requires (a == 0xE0 ==> b >= 0xA0) && (a == 0xED ==> b <= 0x9F)
    ensures IsScalar(c) && EncodeScalar(c) == [a, b, d]
  {
    var high := 64 * (a - 0xE0) + (b - 0x80);
    c := 64 * high + (d - 0x80);
    assert c / 64 == high && c % 64 == d - 0x80;
    assert c / 4096 == high / 64;
  }

  lemma FourBytes(a: Byte, b: Byte, d: Byte, e: Byte) returns (c: int)
    requires 0xF0 <= a <= 0xF4 && Tail(b) && Tail(d) && Tail(e)
    requires (a == 0xF0 ==> b >= 0x90) && (a == 0xF4 ==> b <= 0x8F)
    ensures IsScalar(c) && EncodeScalar(c) == [a, b, d, e]
  {
    var high := 64 * (a - 0xF0) + (b - 0x80);
    var middle := 64 * high + (d - 0x80);
    c := 64 * middle + (e - 0x80);
    assert c / 64 == middle && c % 64 == e - 0x80;
    assert c / 4096 == middle / 64 == high && middle % 64 == d - 0x80;
    assert c / 262144 == high / 64;
  }

  lemma {:induction false} TextIsUtf8(cs: seq<int>)
    requires AreScalars(cs)
    ensures ValidUtf8(EncodeText(cs))
  {
    if cs != [] {
      hide CharLength, EncodeScalar;
      var first, rest := EncodeScalar(cs[0]), EncodeText(cs[1..]);
      ScalarIsChar(cs[0], rest);
      assert (first + rest)[|first|..] == rest;
      TextIsUtf8(cs[1..]);
    }
  }

  lemma {:induction false} Utf8IsText(s: Bytes) returns (cs: seq<int>)
    requires ValidUtf8(s)
    ensures AreScalars(cs) && EncodeText(cs) == s
  {
    cs := [];
    if s == [] {
    } else {
      hide ValidUtf8, EncodeScalar, EncodeText, AreScalars;
      var c, behind := FirstChar(s);
      var rest := Utf8IsText(behind);
      cs := [c] + rest;
      PrependScalar(c, rest);
    }
  }

  lemma FirstChar(s: Bytes) returns (c: int, behind: Bytes)
    requires ValidUtf8(s) && s != []
    ensures IsScalar(c) && ValidUtf8(behind) && s == EncodeScalar(c) + behind && |behind| < |s|
  {
    var n := CharLength(s);
    c := CharIsScalar(s);
    behind := s[n..];
    hide CharLength, EncodeScalar;
    assert s == s[..n] + s[n..];
  }

  lemma PrependScalar(c: int, cs: seq<int>)
    requires IsScalar(c) && AreScalars(cs)
    ensures AreScalars([c] + cs) && EncodeText([c] + cs) == EncodeScalar(c) + EncodeText(cs)
  {
    assert ([c] + cs)[1..] == cs;
  }

  /** Well-formed are exactly the encodings of texts. */
  lemma Utf8Iff(s: Bytes)
    ensures ValidUtf8(s) <==> exists cs :: AreScalars(cs) && EncodeText(cs) == s
  {
    if ValidUtf8(s) {
      var cs := Utf8IsText(s);
    }
    forall cs | AreScalars(cs) && EncodeText(cs) == s ensures ValidUtf8(s) {
      TextIsUtf8(cs);
    }
  }

  // ----- Length-delimited records -----

  function WriteString(s: Bytes): Bytes {
    WriteVarint(|s|) + s
  }

  /** A record cut short by the end of the input leaves what there was of it. */
  datatype StringRead = Whole(value: Bytes, rest: Bytes) | Cut(available: Bytes) | NoLength

  function ReadString(bytes: Bytes): StringRead {
    match ReadVarint(bytes, TWO_32)
    case Malformed => NoLength
    case Got(n, rest) =>
      if n >= TWO_31 then NoLength
      else if n <= |rest| then Whole(rest[..n], rest[n..])
      else Cut(rest)
  }

  lemma StringRoundTrip(s: Bytes, rest: Bytes)
    requires |s| < TWO_31
    ensures ReadString(WriteString(s) + rest) == Whole(s, rest)
  {
    VarintRoundTrip(|s|, TWO_32, s + rest);
    assert WriteVarint(|s|) + (s + rest) == WriteString(s) + rest;
    assert (s + rest)[..|s|] == s && (s + rest)[|s|..] == rest;
  }

  lemma ReadStringShortens(bytes: Bytes)
    ensures var r := ReadString(bytes); r.Whole? ==> |r.rest| < |bytes|
  {
    ReadShortens(bytes, TWO_32);
  }

  // ----- Unknown fields -----

  /** How deep groups may be nested. */
  const RECURSION_LIMIT: nat := 100

  function Skip(bytes: Bytes, n: nat): Read<()> {
    if n <= |bytes| then Got((), bytes[n..]) else Malformed
  }

  function ReadTag(bytes: Bytes): Read<nat> {
    ReadVarint(bytes, TWO_32)
  }

  /** Tags that end a message: 0, or the end of a group. */
  predicate EndsMessage(tag: nat) {
    tag == 0 || tag % 8 == 4
  }

  /** The field behind a tag nobody knows, by its wire type. Groups may be nested `depth` deep. */
  function SkipField(tag: nat, bytes: Bytes, depth: nat): (r: Read<()>)
    ensures r.Got? ==> |r.rest| <= |bytes|
    decreases |bytes|, 1
  {
    match tag % 8
    case 0 =>
      ReadShortens(bytes, TWO_64);
      (match ReadVarint(bytes, TWO_64) case Got(_, rest) => Got((), rest) case Malformed => Malformed)
    case 1 => Skip(bytes, 8)
    case 2 =>
      ReadStringShortens(bytes);
      (match ReadString(bytes) case Whole(_, rest) => Got((), rest) case _ => Malformed)
    case 3 => if depth == 0 then Malformed else SkipGroup(tag, bytes, depth - 1)
    case 5 => Skip(bytes, 4)
    case _ => Malformed
  }

  /** The fields of the group that the tag `start` opens, up to the tag that closes it. */
  function SkipGroup(start: nat, bytes: Bytes, depth: nat): (r: Read<()>)
    ensures r.Got? ==> |r.rest| <= |bytes|
    decreases |bytes|, 0
  {
    ReadShortens(bytes, TWO_32);
    match ReadTag(bytes)
    case Malformed => Malformed
    case Got(tag, rest) =>
      if EndsMessage(tag) then if tag == start + 1 then Got((), rest) else Malformed
      else
        match SkipField(tag, rest, depth)
        case Malformed => Malformed
        case Got(_, rest') => SkipGroup(start, rest', depth)
  }

  /** The bytes behind the tag of a field of wire type `wire`, groups aside. */
  ghost predicate IsFieldBody(wire: nat, body: Bytes) {
    match wire
    case 0 => exists n: nat :: n < TWO_64 && body == WriteVarint(n)
    case 1 => |body| == 8
    case 2 => exists s: Bytes :: |s| < TWO_31 && body == WriteString(s)
    case 5 => |body| == 4
    case _ => false
  }

  lemma SkipWhole(tag: nat, body: Bytes, rest: Bytes, depth: nat)
    requires IsFieldBody(tag % 8, body)
    ensures SkipField(tag, body + rest, depth) == Got((), rest)
  {
    hide WriteVarint, WriteString, ReadVarint, ReadString;
    assert (body + rest)[|body|..] == rest;
    if tag % 8 == 0 {
      var n: nat :| n < TWO_64 && body == WriteVarint(n);
      VarintRoundTrip(n, TWO_64, rest);
    } else if tag % 8 == 2 {
      var s: Bytes :| |s| < TWO_31 && body == WriteString(s);
      StringRoundTrip(s, rest);
    }
  }

  // ----- 32 bits, lowest byte first, as both stubs copy them -----

  function LowByte(n: nat): Byte {
    n % 256
  }

  function LittleEndian32(n: nat): (b: Bytes)
    requires n < TWO_32
    ensures |b| == 4
  {
    [LowByte(n), LowByte(n / 256), LowByte(n / 65536), LowByte(n / 16777216)]
  }

  function FromLittleEndian32(b: Bytes): (n: nat)
    requires |b| >= 4
    ensures n < TWO_32
  {
    var b0: int, b1: int, b2: int, b3: int := b[0], b[1], b[2], b[3];
    b0 + 256 * b1 + 65536 * b2 + 16777216 * b3
  }

  function Pow256(k: nat): nat {
    if k == 0 then 1 else 256 * Pow256(k - 1)
  }

  lemma Pow256Values()
    ensures Pow256(0) == 1 && Pow256(1) == 256 && Pow256(2) == 65536 && Pow256(3) == 16777216
  {
    assert Pow256(2) == 256 * Pow256(1);
  }

  /** Byte `i` of the size word is the digit of 256 to the power of `i`. */
  lemma LittleEndianBytes(n: nat, i: nat)
    requires n < TWO_32 && i < 4
    ensures Pow256(i) > 0 && LittleEndian32(n)[i] == n / Pow256(i) % 256
  {
    Pow256Values();
  }

  /** The first byte is the lowest, and the others are those of what remains. */
  lemma LittleEndianLaw(n: nat)
    requires n < TWO_32
    ensures LittleEndian32(n)[0] == n % 256
    ensures LittleEndian32(n)[1..] + [0] == LittleEndian32(n / 256)
  {
    assert n / 256 / 256 == n / 65536 && n / 256 / 65536 == n / 16777216 && n / 256 / 16777216 == 0;
  }

  lemma FromLittleEndianLaw(b: Bytes)
    requires |b| >= 4
    ensures FromLittleEndian32(b) % 256 == b[0]
    ensures FromLittleEndian32(b) / 256 == FromLittleEndian32(b[1..4] + [0])
  {
    var b0: int, b1: int, b2: int, b3: int := b[0], b[1], b[2], b[3];
    LowDigit(b1 + 256 * b2 + 65536 * b3, b0);
  }

  lemma LowDigit(high: int, low: int)
    requires 0 <= low < 256
    ensures (low + 256 * high) % 256 == low && (low + 256 * high) / 256 == high
  {
  }

  /** A size of one byte, in either direction. */
  lemma SmallSizeWord(n: nat, rest: Bytes)
    requires n < 256
    ensures LittleEndian32(n) == [n, 0, 0, 0]
    ensures FromLittleEndian32([n, 0, 0, 0] + rest) == n
  {
  }

  lemma LittleEndianRoundTrip(n: nat, rest: Bytes)
    requires n < TWO_32
    ensures FromLittleEndian32(LittleEndian32(n) + rest) == n
  {
    assert n == n % 256 + 256 * (n / 256);
    assert n / 256 == n / 256 % 256 + 256 * (n / 256 / 256);
    assert n / 256 / 256 == n / 65536;
    assert n / 65536 == n / 65536 % 256 + 256 * (n / 65536 / 256);
    assert n / 65536 / 256 == n / 16777216;
  }
}
