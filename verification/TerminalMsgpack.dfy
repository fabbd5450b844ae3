/**
 The browser terminal encodes its small objects by hand. The encoder is set against a decoder written from
 the MessagePack specification's formats (sections "int format family" to "map format family").
 */
module TerminalMsgpack {
  import opened Wrappers
  import opened Integers

  /** A JavaScript value; `float64` holds the eight bytes setFloat64 writes for a number. */
  datatype Value =
    | Text(utf8: seq<uint8>)
    | Flag(b: bool)
    | Number(whole: Option<int>, float64: seq<uint8>)
    | List(items: seq<seq<uint8>>)
    | Unsupported

  datatype Member = Member(key: seq<uint8>, value: Value)

  // ---------- Encoder ----------

  /** 0x80 | n */
  function WithBit7(n: nat): nat {
    if n / 0x80 % 2 == 1 then n else n + 0x80
  }

  /** 0x20 | n */
  function WithBit5(n: nat): nat {
    if n / 0x20 % 2 == 1 then n else n + 0x20
  }

  /** 0x10 | n */
  function WithBit4(n: nat): nat {
    if n / 0x10 % 2 == 1 then n else n + 0x10
  }

  /** The bit is set, and those above and below it are as they were. */
  lemma SetsBit7(above: nat, bit: nat, below: nat)
    requires bit < 2 && below < 0x80
    ensures WithBit7(above * 0x100 + bit * 0x80 + below) == above * 0x100 + 0x80 + below
  {}

  lemma SetsBit5(above: nat, bit: nat, below: nat)
    requires bit < 2 && below < 0x20
    ensures WithBit5(above * 0x40 + bit * 0x20 + below) == above * 0x40 + 0x20 + below
  {}

  lemma SetsBit4(above: nat, bit: nat, below: nat)
    requires bit < 2 && below < 0x10
    ensures WithBit4(above * 0x20 + bit * 0x10 + below) == above * 0x20 + 0x10 + below
  {}

  /** Uint8Array keeps the low eight bits of each number. */
  function Low(n: nat): uint8 {
    n % 0x100
  }

  function StringHeader(n: nat): uint8 {
    Low(WithBit5(WithBit7(n)))
  }

  function ArrayHeader(n: nat): uint8 {
    Low(WithBit4(WithBit7(n)))
  }

  function MapHeader(n: nat): uint8 {
    Low(WithBit7(n))
  }

  function ShortString(s: seq<uint8>): seq<uint8> {
    if |s| < 32 then [StringHeader(|s|)] + s else [0xd9, Low(|s|)] + s
  }

  function LongString(s: seq<uint8>): seq<uint8> {
    if |s| < 256 then ShortString(s) else [0xda, Low(|s| / 0x100), Low(|s|)] + s
  }

  function EncodeItems(items: seq<seq<uint8>>): seq<uint8> {
    if items == [] then [] else EncodeItems(items[..|items| - 1]) + ShortString(items[|items| - 1])
  }

  function EncodeValue(v: Value): seq<uint8> {
    match v
    case Text(s) => LongString(s)
    case Flag(b) => [if b then 0xc3 else 0xc2]
    case Number(whole, float64) =>
      if whole.Some? && 0 <= whole.value < 128 then [whole.value]
      else if whole.Some? && 0 <= whole.value < 65536 then [0xcd, Low(whole.value / 0x100), Low(whole.value)]
      else [0xcb] + float64
    case List(items) => [ArrayHeader(|items|)] + EncodeItems(items)
    case Unsupported => []
  }

  function EncodeMember(m: Member): seq<uint8> {
    ShortString(m.key) + EncodeValue(m.value)
  }

  function EncodeMembers(ms: seq<Member>): seq<uint8> {
    if ms == [] then []
    else EncodeMembers(ms[..|ms| - 1]) + EncodeMember(ms[|ms| - 1])
  }

  function EncodeObject(ms: seq<Member>): seq<uint8> {
    [MapHeader(|ms|)] + EncodeMembers(ms)
  }

  method PushShortString(parts: seq<uint8>, s: seq<uint8>) returns (longer: seq<uint8>)
    ensures longer == parts + ShortString(s)
  {
    if |s| < 32 {
      longer := parts + [StringHeader(|s|)];
    } else {
      longer := parts + [0xd9, Low(|s|)];
    }
    longer := longer + s;
  }

  method PushValue(parts: seq<uint8>, v: Value) returns (longer: seq<uint8>)
    ensures longer == parts + EncodeValue(v)
  {
    hide ShortString, ArrayHeader;
    match v {
      case Text(s) =>
        if |s| < 256 {
          longer := PushShortString(parts, s);
        } else {
          longer := parts + [0xda, Low(|s| / 0x100), Low(|s|)];
          longer := longer + s;
        }
      case Flag(b) =>
        longer := parts + [if b then 0xc3 else 0xc2];
      case Number(whole, float64) =>
        if whole.Some? && 0 <= whole.value < 128 {
          longer := parts + [whole.value];
        } else if whole.Some? && 0 <= whole.value < 65536 {
          longer := parts + [0xcd, Low(whole.value / 0x100), Low(whole.value)];
        } else {
          longer := parts + [0xcb];
          longer := longer + float64;
        }
      case List(items) =>
        ghost var header := [ArrayHeader(|items|)];
        longer := parts + [ArrayHeader(|items|)];
        for i := 0 to |items|
          invariant longer == parts + (header + EncodeItems(items[..i]))
        {
          assert items[..i + 1][..i] == items[..i];
          longer := PushShortString(longer, items[i]);
        }
        assert items[..|items|] == items;
      case Unsupported =>
        longer := parts;
    }
  }

  method PushMember(parts: seq<uint8>, m: Member) returns (longer: seq<uint8>)
    ensures longer == parts + EncodeMember(m)
  {
    hide ShortString, EncodeValue;
    longer := PushShortString(parts, m.key);
    longer := PushValue(longer, m.value);
  }

  /** Pushes the bytes of the object onto one growing list, member by member. */
  method EncodeMsgpack(ms: seq<Member>) returns (parts: seq<uint8>)
    ensures parts == EncodeObject(ms)
  {
    hide EncodeMember, MapHeader;
    ghost var header := [MapHeader(|ms|)];
    parts := [MapHeader(|ms|)];
    for i := 0 to |ms|
      invariant parts == header + EncodeMembers(ms[..i])
    {
      assert ms[..i + 1][..i] == ms[..i];
      parts := PushMember(parts, ms[i]);
    }
    assert ms[..|ms|] == ms;
  }

  // ---------- Decoder ----------

  /** A MessagePack value; the members of a map follow one another, key and value by turns. */
  datatype Mp =
    | MpNil
    | MpInt(n: int)
    | MpBool(b: bool)
    | MpFloat64(bits: seq<uint8>)
    | MpStr(s: seq<uint8>)
    | MpArray(items: seq<Mp>)
    | MpMap(members: seq<Mp>)

  /** An unsigned big-endian number of any width. */
  function Unsigned(b: seq<uint8>): nat {
    if b == [] then 0 else Unsigned(b[..|b| - 1]) * 0x100 + b[|b| - 1] as int
  }

  function Pow256(k: nat): nat {
    if k == 0 then 1 else 0x100 * Pow256(k - 1)
  }

  function Signed(b: seq<uint8>): int
    requires b != []
  {
    if b[0] < 0x80 then Unsigned(b) else Unsigned(b) - Pow256(|b|)
  }

  /** `width` bytes of length, after the format byte, and then that many bytes of string. */
  function DecodeString(b: seq<uint8>, width: nat): (r: Option<(Mp, seq<uint8>)>)
    requires b != []
    ensures r.Some? ==> |r.value.1| < |b|
  {
    if |b| < 1 + width then None
    else
      var n, rest := Unsigned(b[1..1 + width]), b[1 + width..];
      if |rest| < n then None else Some((MpStr(rest[..n]), rest[n..]))
  }

  function DecodeInt(b: seq<uint8>, width: nat, signed: bool): (r: Option<(Mp, seq<uint8>)>)
    requires b != [] && width > 0
    ensures r.Some? ==> |r.value.1| < |b|
  {
    if |b| < 1 + width then None
    else
      var digits := b[1..1 + width];
      Some((MpInt(if signed then Signed(digits) else Unsigned(digits)), b[1 + width..]))
  }

  function DecodeSeq(b: seq<uint8>, width: nat, isMap: bool): (r: Option<(Mp, seq<uint8>)>)
    requires b != []
    ensures r.Some? ==> |r.value.1| < |b|
    decreases |b|, 2
  {
    if |b| < 1 + width then None
    else
      var n := Unsigned(b[1..1 + width]);
      var many := DecodeMany(b[1 + width..], if isMap then 2 * n else n);
      if many.None? then None
      else Some((if isMap then MpMap(many.value.0) else MpArray(many.value.0), many.value.1))
  }

  /** One value from the front of the bytes, and the bytes after it. */
  function DecodeOne(b: seq<uint8>): (r: Option<(Mp, seq<uint8>)>)
    ensures r.Some? ==> |r.value.1| < |b|
    decreases |b|, 3
  {
    if b == [] then None
    else
      var f := b[0] as int;
      if f < 0x80 then Some((MpInt(f), b[1..]))
      else if f < 0x90 then
        var many := DecodeMany(b[1..], 2 * (f - 0x80));
        if many.None? then None else Some((MpMap(many.value.0), many.value.1))
      else if f < 0xa0 then
        var many := DecodeMany(b[1..], f - 0x90);
        if many.None? then None else Some((MpArray(many.value.0), many.value.1))
      else if f < 0xc0 then
        if |b| < 1 + (f - 0xa0) then None else Some((MpStr(b[1..1 + (f - 0xa0)]), b[1 + (f - 0xa0)..]))
      else if f == 0xc0 then Some((MpNil, b[1..]))
      else if f == 0xc2 || f == 0xc3 then Some((MpBool(f == 0xc3), b[1..]))
      else if f == 0xcb then
        if |b| < 9 then None else Some((MpFloat64(b[1..9]), b[9..]))
      else if f == 0xcc then DecodeInt(b, 1, false)
      else if f == 0xcd then DecodeInt(b, 2, false)
      else if f == 0xce then DecodeInt(b, 4, false)
      else if f == 0xcf then DecodeInt(b, 8, false)
      else if f == 0xd0 then DecodeInt(b, 1, true)
      else if f == 0xd1 then DecodeInt(b, 2, true)
      else if f == 0xd2 then DecodeInt(b, 4, true)
      else if f == 0xd3 then DecodeInt(b, 8, true)
      else if f == 0xd9 then DecodeString(b, 1)
      else if f == 0xda then DecodeString(b, 2)
      else if f == 0xdb then DecodeString(b, 4)
      else if f == 0xdc then DecodeSeq(b, 2, false)
      else if f == 0xdd then DecodeSeq(b, 4, false)
      else if f == 0xde then DecodeSeq(b, 2, true)
      else if f == 0xdf then DecodeSeq(b, 4, true)
      else if f >= 0xe0 then Some((MpInt(f - 0x100), b[1..]))
      else None
  }

  function DecodeMany(b: seq<uint8>, n: nat): (r: Option<(seq<Mp>, seq<uint8>)>)
    ensures r.Some? ==> |r.value.0| == n && |r.value.1| <= |b|
    decreases |b|, 4
  {
    if n == 0 then Some(([], b))
    else
      var first := DecodeOne(b);
      if first.None? then None
      else
        var rest := DecodeMany(first.value.1, n - 1);
        if rest.None? then None else Some(([first.value.0] + rest.value.0, rest.value.1))
  }

  // ---------- Round trip ----------

  predicate Encodable(v: Value) {
    match v
    case Text(s) => |s| < 65536
    case Flag(_) => true
    case Number(_, float64) => |float64| == 8
    case List(items) => |items| < 16 && forall s :: s in items ==> |s| < 256
    case Unsupported => false
  }

  predicate EncodableObject(ms: seq<Member>) {
    |ms| < 16 && forall m :: m in ms ==> |m.key| < 256 && Encodable(m.value)
  }

  /** The MessagePack value a JavaScript value stands for; one of unknown kind is never written. */
  function Meaning(v: Value): Mp {
    match v
    case Text(s) => MpStr(s)
    case Flag(b) => MpBool(b)
    case Number(whole, float64) =>
      if whole.Some? && 0 <= whole.value < 65536 then MpInt(whole.value) else MpFloat64(float64)
    case List(items) => MpArray(Strings(items))
    case Unsupported => MpNil
  }

  function Strings(items: seq<seq<uint8>>): seq<Mp> {
    seq(|items|, i requires 0 <= i < |items| => MpStr(items[i]))
  }

  /** What the encoder writes one after the other: a key or list item, or a member's value. */
  datatype Piece = Short(s: seq<uint8>) | Full(v: Value)

  function EncodePiece(p: Piece): seq<uint8> {
    match p case Short(s) => ShortString(s) case Full(v) => EncodeValue(v)
  }

  function EncodePieces(ps: seq<Piece>): seq<uint8> {
    if ps == [] then [] else EncodePieces(ps[..|ps| - 1]) + EncodePiece(ps[|ps| - 1])
  }

  function Items(items: seq<seq<uint8>>): seq<Piece> {
    seq(|items|, i requires 0 <= i < |items| => Short(items[i]))
  }

  function MemberPieces(m: Member): seq<Piece> {
    if m.value.Unsupported? then [Short(m.key)] else [Short(m.key), Full(m.value)]
  }

  /** A value of unknown kind is not written. */
  function Pieces(ms: seq<Member>): seq<Piece> {
    if ms == [] then [] else Pieces(ms[..|ms| - 1]) + MemberPieces(ms[|ms| - 1])
  }

  predicate Fits(p: Piece) {
    match p case Short(s) => |s| < 256 case Full(v) => Encodable(v)
  }

  function PieceMeaning(p: Piece): Mp {
    match p case Short(s) => MpStr(s) case Full(v) => Meaning(v)
  }

  function Meanings(ps: seq<Piece>): seq<Mp> {
    seq(|ps|, i requires 0 <= i < |ps| => PieceMeaning(ps[i]))
  }

  /** The values the members of an object stand for, key and value by turns. */
  function MeaningOf(ms: seq<Member>): seq<Mp> {
    Meanings(Pieces(ms))
  }

  lemma {:induction false} ItemsArePieces(items: seq<seq<uint8>>)
    ensures EncodePieces(Items(items)) == EncodeItems(items)
  {
    hide ShortString, EncodeValue;
    if items != [] {
      var before, last := items[..|items| - 1], items[|items| - 1];
      ItemsArePieces(before);
      assert Items(items) == Items(before) + [Short(last)];
      PiecesMore(Items(before), Short(last));
    }
  }

  lemma ItemsMeanStrings(items: seq<seq<uint8>>)
    ensures Meanings(Items(items)) == Strings(items)
  {
    hide Meaning;
  }

  lemma PiecesMore(ps: seq<Piece>, p: Piece)
    ensures EncodePieces(ps + [p]) == EncodePieces(ps) + EncodePiece(p)
    ensures Meanings(ps + [p]) == Meanings(ps) + [PieceMeaning(p)]
  {
    hide EncodePiece, PieceMeaning;
    assert (ps + [p])[..|ps|] == ps;
  }

  lemma MemberIsPieces(ps: seq<Piece>, m: Member)
    ensures EncodePieces(ps + MemberPieces(m)) == EncodePieces(ps) + EncodeMember(m)
  {
    hide EncodePieces, ShortString;
    PiecesMore(ps, Short(m.key));
    if m.value.Unsupported? {
      assert EncodeMember(m) == ShortString(m.key) + [];
    } else {
      hide EncodeValue;
      PiecesMore(ps + [Short(m.key)], Full(m.value));
      assert ps + MemberPieces(m) == ps + [Short(m.key)] + [Full(m.value)];
    }
  }

  lemma {:induction false} MembersArePieces(ms: seq<Member>)
    ensures EncodePieces(Pieces(ms)) == EncodeMembers(ms)
  {
    hide EncodeMember, MemberPieces;
    if ms != [] {
      MembersArePieces(ms[..|ms| - 1]);
      MemberIsPieces(Pieces(ms[..|ms| - 1]), ms[|ms| - 1]);
    }
  }

  lemma UnsignedOne(a: uint8)
    ensures Unsigned([a]) == a as int
  {
    assert [a][..0] == [];
  }

  lemma UnsignedTwo(a: uint8, b: uint8)
    ensures Unsigned([a, b]) == a as int * 0x100 + b as int
  {
    assert [a, b][..1] == [a];
    UnsignedOne(a);
  }

  lemma StringStarts(b: seq<uint8>)
    requires |b| > 0
    ensures b[0] == 0xd9 ==> DecodeOne(b) == DecodeString(b, 1)
    ensures b[0] == 0xda ==> DecodeOne(b) == DecodeString(b, 2)
    ensures 0xa0 <= b[0] < 0xc0 && |b| >= 1 + (b[0] as int - 0xa0) ==>
            DecodeOne(b) == Some((MpStr(b[1..1 + (b[0] as int - 0xa0)]), b[1 + (b[0] as int - 0xa0)..]))
  {
    hide DecodeMany, DecodeString;
  }

  /** A length field that holds the string's own length gives the string back; a smaller one gives another string. */
  lemma LengthDecides(head: seq<uint8>, width: nat, s: seq<uint8>, tail: seq<uint8>)
    requires |head| == 1 + width && Unsigned(head[1..]) <= |s|
    ensures var r := DecodeString(head + s + tail, width);
            if Unsigned(head[1..]) == |s| then r == Some((MpStr(s), tail)) else r.Some? ==> r.value.0 != MpStr(s)
  {
    hide Unsigned;
    var b := head + s + tail;
    assert b[1..1 + width] == head[1..] && b[1 + width..] == s + tail;
    assert (s + tail)[..|s|] == s && (s + tail)[|s|..] == tail;
  }

  /** A short string reads as itself exactly below 256 bytes. */
  lemma ShortStringReads(s: seq<uint8>, tail: seq<uint8>)
    ensures |s| < 256 ==> DecodeOne(ShortString(s) + tail) == Some((MpStr(s), tail))
    ensures |s| >= 256 ==> var r := DecodeOne(ShortString(s) + tail); r.Some? ==> r.value.0 != MpStr(s)
  {
    hide DecodeOne, DecodeString, StringHeader;
    var b := ShortString(s) + tail;
    StringStarts(b);
    if |s| < 32 {
      StringHeaders(|s|);
      assert b[1..1 + |s|] == s && b[1 + |s|..] == tail;
    } else {
      UnsignedOne(Low(|s|));
      LengthDecides([0xd9, Low(|s|)], 1, s, tail);
    }
  }

  lemma StringHeaders(n: nat)
    requires n < 32
    ensures StringHeader(n) as int == 0xa0 + n
  {}

  lemma LongStringReads(s: seq<uint8>, tail: seq<uint8>)
    ensures |s| < 65536 ==> DecodeOne(LongString(s) + tail) == Some((MpStr(s), tail))
    ensures |s| >= 65536 ==> var r := DecodeOne(LongString(s) + tail); r.Some? ==> r.value.0 != MpStr(s)
  {
    hide DecodeOne, DecodeString, ShortString;
    if |s| < 256 {
      ShortStringReads(s, tail);
    } else {
      StringStarts(LongString(s) + tail);
      UnsignedTwo(Low(|s| / 0x100), Low(|s|));
      assert [0xda, Low(|s| / 0x100), Low(|s|)][1..] == [Low(|s| / 0x100), Low(|s|)];
      LowTwo(|s|);
      LengthDecides([0xda, Low(|s| / 0x100), Low(|s|)], 2, s, tail);
    }
  }

  lemma LowTwo(n: nat)
    ensures Low(n / 0x100) as int * 0x100 + Low(n) as int <= n
    ensures Low(n / 0x100) as int * 0x100 + Low(n) as int == n <==> n < 65536
  {}

  lemma NumberReads(whole: Option<int>, float64: seq<uint8>, tail: seq<uint8>)
    requires |float64| == 8
    ensures DecodeOne(EncodeValue(Number(whole, float64)) + tail) == Some((Meaning(Number(whole, float64)), tail))
  {
    hide DecodeMany;
    var b := EncodeValue(Number(whole, float64)) + tail;
    if whole.Some? && 0 <= whole.value < 65536 {
      if whole.value >= 128 {
        UnsignedTwo(Low(whole.value / 0x100), Low(whole.value));
        assert b[1..3] == [Low(whole.value / 0x100), Low(whole.value)] && b[3..] == tail;
      }
    } else {
      assert b[1..9] == float64 && b[9..] == tail;
    }
  }

  // ---------- One value after the other ----------

  /** The front of `b` holds these n values, and `rest` comes after them. */
  ghost predicate Holds(b: seq<uint8>, n: nat, items: seq<Mp>, rest: seq<uint8>) {
    DecodeMany(b, n) == Some((items, rest))
  }

  lemma EmptyHolds(b: seq<uint8>)
    ensures Holds(b, 0, [], b)
  {}

  /** Decoding n values and then one more is decoding n + 1. */
  lemma {:induction false} DecodeOneMore(b: seq<uint8>, n: nat, items: seq<Mp>, rest: seq<uint8>, item: Mp, tail: seq<uint8>)
    requires Holds(b, n, items, rest) && DecodeOne(rest) == Some((item, tail))
    ensures Holds(b, n + 1, items + [item], tail)
    decreases n
  {
    hide DecodeOne;
    if n == 0 {
      assert DecodeMany(tail, 0) == Some(([], tail));
      assert [item] + [] == items + [item];
    } else {
      var (first, next) := DecodeOne(b).value;
      var others := DecodeMany(next, n - 1).value.0;
      DecodeOneMore(next, n - 1, others, rest, item, tail);
      assert [first] + (others + [item]) == ([first] + others) + [item];
    }
  }

  /** Of more values than the front holds, the next one is what follows the front. */
  lemma {:induction false} NextItem(b: seq<uint8>, n: nat, items: seq<Mp>, tail: seq<uint8>,
                                    k: nat, front: seq<Mp>, rest: seq<uint8>)
    requires Holds(b, n, items, tail) && Holds(b, k, front, rest) && k < n
    ensures |items| == n && DecodeOne(rest).Some? && DecodeOne(rest).value.0 == items[k]
    ensures Holds(DecodeOne(rest).value.1, n - k - 1, items[k + 1..], tail)
    decreases k
  {
    hide DecodeOne;
    if k > 0 {
      var next := DecodeOne(b).value.1;
      NextItem(next, n - 1, items[1..], tail, k - 1, front[1..], rest);
      assert items[1..][k..] == items[k + 1..];
    }
  }

  /** Where nothing follows the front, there are no more values. */
  lemma {:induction false} NoNextItem(b: seq<uint8>, k: nat, front: seq<Mp>, n: nat)
    requires Holds(b, k, front, []) && k < n
    ensures DecodeMany(b, n) == None
    decreases k
  {
    if k == 0 {
      assert DecodeOne([]) == None;
    } else {
      hide DecodeOne;
      NoNextItem(DecodeOne(b).value.1, k - 1, front[1..], n - 1);
    }
  }

  // ---------- How much a reading takes ----------

  /** No reading that gives the value takes fewer bytes. */
  ghost function Least(v: Mp): nat {
    match v
    case MpNil => 1
    case MpInt(n) => if n < 128 then 1 else if n < 256 then 2 else 3
    case MpBool(_) => 1
    case MpFloat64(bits) => 9
    case MpStr(s) => LeastHeader(|s|) + |s|
    case MpArray(items) => (if |items| < 16 then 1 else 3) + LeastOfAll(items)
    case MpMap(members) => 1 + LeastOfAll(members)
  }

  ghost function LeastOfAll(vs: seq<Mp>): nat {
    if vs == [] then 0 else Least(vs[0]) + LeastOfAll(vs[1..])
  }

  function LeastHeader(n: nat): nat {
    if n < 32 then 1 else if n < 256 then 2 else 3
  }

  /** The bytes left over are the end of `b`, after at least `n` bytes. */
  ghost predicate Takes(b: seq<uint8>, n: nat, rest: seq<uint8>) {
    n + |rest| <= |b| && rest == b[|b| - |rest|..]
  }

  lemma TakesMore(b: seq<uint8>, k: nat, n: nat, rest: seq<uint8>)
    requires k <= |b| && Takes(b[k..], n, rest)
    ensures Takes(b, k + n, rest)
  {}

  lemma {:induction false} UnsignedBound(b: seq<uint8>)
    ensures Unsigned(b) < Pow256(|b|)
  {
    if b != [] {
      UnsignedBound(b[..|b| - 1]);
    }
  }

  lemma StringTakes(b: seq<uint8>, width: nat)
    requires b != [] && width in {1, 2, 4} && DecodeString(b, width).Some?
    ensures var r := DecodeString(b, width).value; Takes(b, Least(r.0), r.1)
  {
    hide Unsigned;
    UnsignedBound(b[1..1 + width]);
    assert Pow256(1) == 0x100 && Pow256(2) == 0x1_0000;
  }

  lemma IntTakes(b: seq<uint8>, width: nat, signed: bool)
    requires b != [] && width in {1, 2, 4, 8} && DecodeInt(b, width, signed).Some?
    ensures var r := DecodeInt(b, width, signed).value; Takes(b, Least(r.0), r.1)
    ensures var r := DecodeInt(b, width, signed).value;
            r.0.n >= 128 && |r.1| + 2 == |b| ==> width == 1 && !signed && r.0.n == b[1] as int
  {
    hide Unsigned;
    var digits := b[1..1 + width];
    UnsignedBound(digits);
    if width == 1 {
      assert Pow256(1) == 0x100 && digits == [b[1]];
      UnsignedOne(b[1]);
    }
  }

  lemma SeqTakes(b: seq<uint8>, width: nat, isMap: bool)
    requires b != [] && width in {2, 4} && DecodeSeq(b, width, isMap).Some?
    ensures var r := DecodeSeq(b, width, isMap).value; Takes(b, Least(r.0), r.1)
    decreases |b|, 2
  {
    hide Unsigned, DecodeMany;
    var n := Unsigned(b[1..1 + width]);
    ManyTake(b[1 + width..], if isMap then 2 * n else n);
    TakesMore(b, 1 + width, LeastOfAll(DecodeMany(b[1 + width..], if isMap then 2 * n else n).value.0),
              DecodeSeq(b, width, isMap).value.1);
  }

  lemma FixedTakes(b: seq<uint8>, n: nat)
    requires b != [] && DecodeMany(b[1..], n).Some?
    ensures var many := DecodeMany(b[1..], n).value; Takes(b, 1 + LeastOfAll(many.0), many.1)
    decreases |b|, 2
  {
    hide DecodeMany;
    ManyTake(b[1..], n);
    TakesMore(b, 1, LeastOfAll(DecodeMany(b[1..], n).value.0), DecodeMany(b[1..], n).value.1);
  }

  /** The bytes after the format byte of a number. */
  function IntWidth(f: int): nat {
    if f == 0xcc || f == 0xd0 then 1 else if f == 0xcd || f == 0xd1 then 2 else if f == 0xce || f == 0xd2 then 4 else 8
  }

  /** Which format bytes give arrays, maps and larger numbers. */
  lemma FormOf(b: seq<uint8>)
    requires DecodeOne(b).Some?
    ensures var f, r := b[0] as int, DecodeOne(b);
            && (r.value.0.MpArray? ==>
                  || (0x90 <= f < 0xa0 && |r.value.0.items| < 16)
                  || (f == 0xdc && r == DecodeSeq(b, 2, false)) || (f == 0xdd && r == DecodeSeq(b, 4, false)))
            && (r.value.0.MpMap? ==>
                  || (0x80 <= f < 0x90 && |r.value.0.members| <= 30)
                  || (f == 0xde && r == DecodeSeq(b, 2, true)) || (f == 0xdf && r == DecodeSeq(b, 4, true)))
            && (r.value.0.MpInt? && r.value.0.n >= 128 ==>
                  || (0xcc <= f <= 0xcf && r == DecodeInt(b, IntWidth(f), false))
                  || (0xd0 <= f <= 0xd3 && r == DecodeInt(b, IntWidth(f), true)))
  {
    hide DecodeMany, DecodeSeq, DecodeInt, DecodeString;
    var f := b[0] as int;
    if 0xcc <= f <= 0xd3 {
      IntIsInt(b, IntWidth(f), f >= 0xd0);
    } else if 0xd9 <= f <= 0xdb {
      StringIsString(b, if f == 0xd9 then 1 else if f == 0xda then 2 else 4);
    } else if 0xdc <= f <= 0xdf {
      SeqIsSeq(b, if f % 2 == 0 then 2 else 4, f >= 0xde);
    }
  }

  lemma IntIsInt(b: seq<uint8>, width: nat, signed: bool)
    requires b != [] && width > 0
    ensures DecodeInt(b, width, signed).Some? ==> DecodeInt(b, width, signed).value.0.MpInt?
  {
    hide Unsigned, Signed;
  }

  lemma StringIsString(b: seq<uint8>, width: nat)
    requires b != []
    ensures DecodeString(b, width).Some? ==> DecodeString(b, width).value.0.MpStr?
  {
    hide Unsigned;
  }

  lemma SeqIsSeq(b: seq<uint8>, width: nat, isMap: bool)
    requires b != []
    ensures var r := DecodeSeq(b, width, isMap);
            r.Some? ==> if isMap then r.value.0.MpMap? else r.value.0.MpArray?
  {
    hide Unsigned, DecodeMany;
  }

  lemma OneTakes(b: seq<uint8>)
    requires DecodeOne(b).Some?
    ensures var r := DecodeOne(b).value; Takes(b, Least(r.0), r.1)
    decreases |b|, 3
  {
    hide DecodeMany, DecodeSeq, DecodeInt, DecodeString, LeastOfAll;
    var f := b[0] as int;
    if 0x80 <= f < 0x90 {
      FixedTakes(b, 2 * (f - 0x80));
    } else if 0x90 <= f < 0xa0 {
      FixedTakes(b, f - 0x90);
    } else if 0xcc <= f <= 0xd3 {
      IntTakes(b, IntWidth(f), f >= 0xd0);
    } else if 0xd9 <= f <= 0xdb {
      StringTakes(b, if f == 0xd9 then 1 else if f == 0xda then 2 else 4);
    } else if 0xdc <= f <= 0xdf {
      SeqTakes(b, if f % 2 == 0 then 2 else 4, f >= 0xde);
    }
  }

  lemma {:induction false} ManyTake(b: seq<uint8>, n: nat)
    requires DecodeMany(b, n).Some?
    ensures var many := DecodeMany(b, n).value; Takes(b, LeastOfAll(many.0), many.1)
    decreases |b|, 4, n
  {
    if n > 0 {
      hide DecodeOne, Least;
      var first := DecodeOne(b).value;
      OneTakes(b);
      ManyTake(first.1, n - 1);
      assert DecodeMany(b, n).value.0[1..] == DecodeMany(first.1, n - 1).value.0;
      TakesMore(b, |b| - |first.1|, LeastOfAll(DecodeMany(first.1, n - 1).value.0), DecodeMany(b, n).value.1);
    }
  }

  lemma {:induction false} LeastAppend(vs: seq<Mp>, v: Mp)
    ensures LeastOfAll(vs + [v]) == LeastOfAll(vs) + Least(v)
  {
    hide Least;
    if vs == [] {
      assert [] + [v] == [v] && [v][1..] == [];
    } else {
      assert (vs + [v])[1..] == vs[1..] + [v];
      LeastAppend(vs[1..], v);
    }
  }

  // ---------- A reader ahead of the writer ----------

  /** The encoder spends three bytes on these numbers, where two would do. */
  predicate Slack(p: Piece) {
    p.Full? && p.v.Number? && p.v.whole.Some? && 128 <= p.v.whole.value < 256
  }

  /** After such a number comes a key, or nothing. */
  predicate Separated(ps: seq<Piece>) {
    forall i :: 0 <= i < |ps| - 1 && Slack(ps[i]) ==> ps[i + 1].Short?
  }

  /** A JavaScript number takes eight bytes as a float64. */
  predicate IsOrdinary(v: Value) {
    v.Number? ==> |v.float64| == 8
  }

  predicate AreOrdinary(ps: seq<Piece>) {
    forall p :: p in ps && p.Full? ==> IsOrdinary(p.v)
  }

  lemma {:induction false} ItemsTakeLeast(items: seq<seq<uint8>>)
    ensures |EncodeItems(items)| <= LeastOfAll(Strings(items))
  {
    if items != [] {
      var before, last := items[..|items| - 1], items[|items| - 1];
      ItemsTakeLeast(before);
      assert Strings(items) == Strings(before) + [MpStr(last)];
      LeastAppend(Strings(before), MpStr(last));
    }
  }

  /** But for those numbers, the encoder spends no more on a piece than a reading of it takes. */
  lemma PieceTakesLeast(p: Piece)
    requires p.Full? ==> IsOrdinary(p.v)
    ensures |EncodePiece(p)| <= Least(PieceMeaning(p)) + if Slack(p) then 1 else 0
  {
    hide EncodeItems, LeastOfAll, Strings;
    if p.Full? && p.v.List? {
      ItemsTakeLeast(p.v.items);
    }
  }

  lemma {:induction false} PiecesFromFront(ps: seq<Piece>)
    requires ps != []
    ensures EncodePieces(ps) == EncodePiece(ps[0]) + EncodePieces(ps[1..])
  {
    hide EncodePiece, EncodePieces, Meanings;
    var before, last := ps[..|ps| - 1], ps[|ps| - 1];
    PiecesMore(before, last);
    assert ps == before + [last];
    NoPieces();
    if before != [] {
      var middle := before[1..];
      PiecesFromFront(before);
      PiecesMore(middle, last);
      assert ps[1..] == middle + [last];
    }
  }

  lemma HoldsFirst(b: seq<uint8>, n: nat, items: seq<Mp>, rest: seq<uint8>)
    requires Holds(b, n, items, rest) && n > 0
    ensures |items| == n && DecodeOne(b).Some? && DecodeOne(b).value.0 == items[0]
    ensures Holds(DecodeOne(b).value.1, n - 1, items[1..], rest)
  {
    hide DecodeOne;
  }

  lemma TwoByteNumber(b: seq<uint8>, n: int, rest: seq<uint8>)
    requires DecodeOne(b) == Some((MpInt(n), rest)) && n >= 128 && |rest| + 2 == |b|
    ensures b[0] == 0xcc && b[1] as int == n
  {
    hide DecodeOne, DecodeInt;
    FormOf(b);
    var f := b[0] as int;
    if f <= 0xcf {
      IntTakes(b, IntWidth(f), false);
    } else {
      IntTakes(b, IntWidth(f), true);
    }
  }

  lemma ShortStarts(s: seq<uint8>)
    ensures |ShortString(s)| > 0 && ShortString(s)[0] != 0xcc
  {
    hide StringHeader;
    if |s| < 32 {
      StringHeaders(|s|);
    }
  }

  /** Two bytes ahead, the last byte of such a number does not start the same number again. */
  lemma NoSlackAhead(p: Piece, after: seq<uint8>, next: seq<uint8>)
    requires Slack(p) && DecodeOne((EncodePiece(p) + after)[2..]) == Some((PieceMeaning(p), next)) && |next| + 1 == |after|
    ensures after[0] == 0xcc
  {
    hide DecodeOne;
    var n := p.v.whole.value;
    assert (EncodePiece(p) + after)[2..] == [Low(n)] + after;
    TwoByteNumber([Low(n)] + after, n, next);
  }

  /** How many bytes of the tail a reader that is ahead has taken at least. */
  function Lead(ps: seq<Piece>): nat {
    if ps != [] && Slack(ps[|ps| - 1]) then 1 else 2
  }

  /** A reader that is two bytes ahead and still reads what was written stays ahead, into what follows. */
  lemma {:induction false} AheadStays(ps: seq<Piece>, tail: seq<uint8>, d: nat, rest: seq<uint8>)
    requires Separated(ps) && AreOrdinary(ps)
    requires 2 <= d <= |EncodePieces(ps) + tail|
    requires Holds((EncodePieces(ps) + tail)[d..], |ps|, Meanings(ps), rest)
    ensures |rest| + Lead(ps) <= |tail|
    decreases |ps|
  {
    hide EncodePiece, PieceMeaning, DecodeOne, EncodePieces, Holds, Least, Slack;
    var s := EncodePieces(ps) + tail;
    var b := s[d..];
    if ps == [] {
      NothingHolds(b, rest);
      NoPieces();
    } else {
      var p, others := ps[0], ps[1..];
      HoldsFirst(b, |ps|, Meanings(ps), rest);
      var next, after := DecodeOne(b).value.1, EncodePieces(others) + tail;
      PiecesFromFront(ps);
      assert s == EncodePiece(p) + after;
      assert Meanings(ps)[1..] == Meanings(others);
      OneTakes(b);
      PieceTakesLeast(p);
      assert next == after[|after| - |next|..];
      if |next| + 2 <= |after| {
        assert forall i :: 0 <= i < |others| ==> others[i] == ps[i + 1];
        AheadStays(others, tail, |after| - |next|, rest);
      } else if others == [] {
        NothingHolds(next, rest);
        NoPieces();
      } else {
        KeyFollows(ps, tail);
        NoSlackAhead(p, after, next);
        assert false;
      }
    }
  }

  lemma KeyFollows(ps: seq<Piece>, tail: seq<uint8>)
    requires Separated(ps) && |ps| > 1 && Slack(ps[0])
    ensures var after := EncodePieces(ps[1..]) + tail; |after| > 0 && after[0] != 0xcc
  {
    hide EncodePiece, EncodePieces, Slack;
    assert ps[1..][0] == ps[1];
    PiecesFromFront(ps[1..]);
    FirstOfPiece(ps[1].s);
    ShortStarts(ps[1].s);
  }

  lemma FirstOfPiece(s: seq<uint8>)
    ensures EncodePiece(Short(s)) == ShortString(s)
  {}

  lemma NoPieces()
    ensures EncodePieces([]) == []
  {}

  lemma NothingHolds(b: seq<uint8>, rest: seq<uint8>)
    ensures Holds(b, 0, [], rest) <==> rest == b
  {}

  /** A piece that fits its format reads as what it stands for; another one does not, or the reader runs ahead. */
  ghost predicate ReadsExactly(p: Piece, tail: seq<uint8>) {
    var r := DecodeOne(EncodePiece(p) + tail);
    if Fits(p) then r == Some((PieceMeaning(p), tail))
    else r.Some? && r.value.0 == PieceMeaning(p) ==> |r.value.1| + 2 <= |tail|
  }

  lemma {:induction false} FittingPiecesDecode(ps: seq<Piece>, tail: seq<uint8>, b: seq<uint8>)
    requires forall p :: p in ps ==> Fits(p) && forall t :: ReadsExactly(p, t)
    requires b == EncodePieces(ps) + tail
    ensures Holds(b, |ps|, Meanings(ps), tail)
  {
    hide Fits, EncodePiece, PieceMeaning, Holds, DecodeOne;
    if ps == [] {
      EmptyHolds(b);
      assert b == tail;
    } else {
      var before, last := ps[..|ps| - 1], ps[|ps| - 1];
      var rest := EncodePiece(last) + tail;
      assert b == EncodePieces(before) + rest;
      FittingPiecesDecode(before, rest, b);
      assert ReadsExactly(last, tail);
      DecodeOneMore(b, |before|, Meanings(before), rest, PieceMeaning(last), tail);
      assert Meanings(before) + [PieceMeaning(last)] == Meanings(ps);
    }
  }

  lemma {:induction false} SplitPieces(ps: seq<Piece>, k: nat)
    requires k < |ps|
    ensures EncodePieces(ps) == EncodePieces(ps[..k]) + (EncodePiece(ps[k]) + EncodePieces(ps[k + 1..]))
    decreases |ps|
  {
    hide EncodePiece;
    var before := ps[..|ps| - 1];
    if k == |ps| - 1 {
      assert EncodePieces(ps[k + 1..]) == [];
    } else {
      SplitPieces(before, k);
      assert before[..k] == ps[..k] && ps[k + 1..][..|ps| - k - 2] == before[k + 1..];
    }
  }

  lemma AheadAfter(ps: seq<Piece>, k: nat, tail: seq<uint8>, next: seq<uint8>, after: seq<uint8>)
    requires Separated(ps) && AreOrdinary(ps) && k < |ps| && !Slack(ps[k])
    requires var rest := EncodePieces(ps[k + 1..]) + tail; |next| + 2 <= |rest| && next == rest[|rest| - |next|..]
    requires Holds(next, |ps| - k - 1, Meanings(ps)[k + 1..], after)
    ensures |after| + Lead(ps) <= |tail|
  {
    hide EncodePiece, PieceMeaning, Holds, EncodePieces, Slack, IsOrdinary;
    var others := ps[k + 1..];
    assert forall i :: 0 <= i < |others| ==> others[i] == ps[k + 1 + i];
    assert Meanings(ps)[k + 1..] == Meanings(others);
    AheadStays(others, tail, |EncodePieces(others) + tail| - |next|, after);
  }

  lemma SlackFits(p: Piece)
    requires Slack(p) && (p.Full? ==> IsOrdinary(p.v))
    ensures Fits(p)
  {}

  /** The first piece that does not fit keeps the whole from reading back up to its end. */
  lemma MisfitBreaks(ps: seq<Piece>, tail: seq<uint8>, k: nat, after: seq<uint8>)
    requires Separated(ps) && AreOrdinary(ps)
    requires k < |ps| && !Fits(ps[k]) && forall j :: 0 <= j < k ==> Fits(ps[j])
    requires forall p, t :: p in ps ==> ReadsExactly(p, t)
    requires Holds(EncodePieces(ps) + tail, |ps|, Meanings(ps), after)
    ensures |after| + Lead(ps) <= |tail|
  {
    hide Fits, EncodePiece, PieceMeaning, Holds, DecodeOne, EncodePieces, Slack, Separated, IsOrdinary, Lead;
    var rest := EncodePieces(ps[k + 1..]) + tail;
    SplitPieces(ps, k);
    var b := EncodePieces(ps) + tail;
    assert b == EncodePieces(ps[..k]) + (EncodePiece(ps[k]) + rest);
    FittingPiecesDecode(ps[..k], EncodePiece(ps[k]) + rest, b);
    assert ReadsExactly(ps[k], rest);
    NextItem(b, |ps|, Meanings(ps), after, k, Meanings(ps[..k]), EncodePiece(ps[k]) + rest);
    var next := DecodeOne(EncodePiece(ps[k]) + rest).value.1;
    OneTakes(EncodePiece(ps[k]) + rest);
    assert next == rest[|rest| - |next|..];
    if Slack(ps[k]) {
      SlackFits(ps[k]);
    }
    AheadAfter(ps, k, tail, next, after);
  }

  lemma {:induction false} FirstMisfit(ps: seq<Piece>) returns (k: nat)
    requires exists p :: p in ps && !Fits(p)
    ensures k < |ps| && !Fits(ps[k]) && forall j :: 0 <= j < k ==> Fits(ps[j])
  {
    hide Fits;
    if !Fits(ps[0]) {
      k := 0;
    } else {
      var p :| p in ps && !Fits(p);
      assert p in ps[1..];
      k := FirstMisfit(ps[1..]);
      k := k + 1;
    }
  }

  /** Pieces read back, one after the other, exactly when every one fits its format. */
  lemma PiecesReadExactly(ps: seq<Piece>, tail: seq<uint8>)
    requires Separated(ps) && AreOrdinary(ps)
    requires forall p, t :: p in ps ==> ReadsExactly(p, t)
    ensures if forall p :: p in ps ==> Fits(p) then Holds(EncodePieces(ps) + tail, |ps|, Meanings(ps), tail)
            else forall after :: Holds(EncodePieces(ps) + tail, |ps|, Meanings(ps), after) ==> |after| + Lead(ps) <= |tail|
  {
    hide Fits, Holds, ReadsExactly, Separated, AreOrdinary, Lead;
    if forall p :: p in ps ==> Fits(p) {
      FittingPiecesDecode(ps, tail, EncodePieces(ps) + tail);
    } else {
      var k := FirstMisfit(ps);
      forall after | Holds(EncodePieces(ps) + tail, |ps|, Meanings(ps), after) ensures |after| + Lead(ps) <= |tail| {
        MisfitBreaks(ps, tail, k, after);
      }
    }
  }

  // ---------- Lists ----------

  lemma ArrayStarts(b: seq<uint8>, n: nat)
    requires |b| > 0 && b[0] as int == 0x90 + n && n < 16
    ensures DecodeOne(b) == match DecodeMany(b[1..], n)
                            case None => None
                            case Some(many) => Some((MpArray(many.0), many.1))
  {
    hide DecodeMany;
  }

  lemma SmallListReads(items: seq<seq<uint8>>, tail: seq<uint8>)
    requires |items| < 16
    ensures ReadsExactly(Full(List(items)), tail)
  {
    hide EncodeItems, EncodePieces, DecodeOne, DecodeMany, Meanings, ShortString, ArrayHeader, Strings;
    var b := EncodeValue(List(items)) + tail;
    ItemsArePieces(items);
    ItemsMeanStrings(items);
    forall p, t | p in Items(items) ensures ReadsExactly(p, t) {
      ShortReadsExactly(p.s, t);
    }
    PiecesReadExactly(Items(items), tail);
    SmallHeaders(|items|);
    Headed(ArrayHeader(|items|), EncodeItems(items), tail);
    ArrayStarts(b, |items|);
    ItemsFit(items);
    var many := DecodeMany(b[1..], |items|);
    assert many.Some? ==> Holds(b[1..], |items|, many.value.0, many.value.1);
  }

  /** The size of an array or map with a separate size, and what follows it. */
  lemma SeqHolds(b: seq<uint8>, width: nat, isMap: bool, v: seq<Mp>, rest: seq<uint8>)
    requires b != [] && DecodeSeq(b, width, isMap) == Some((if isMap then MpMap(v) else MpArray(v), rest))
    ensures |b| >= 1 + width && Holds(b[1 + width..], |v|, v, rest)
  {
    hide Unsigned, DecodeMany;
  }

  lemma ArraySize(b: seq<uint8>, v: seq<Mp>, rest: seq<uint8>)
    requires DecodeOne(b) == Some((MpArray(v), rest)) && |v| >= 16
    ensures (b[0] == 0xdc && |b| >= 3 && Holds(b[3..], |v|, v, rest)) ||
            (b[0] == 0xdd && |b| >= 5 && Holds(b[5..], |v|, v, rest))
  {
    hide DecodeOne, DecodeSeq, Holds;
    FormOf(b);
    SeqHolds(b, if b[0] == 0xdc then 2 else 4, false, v, rest);
  }

  /** A longer list says a length that is not its own, or its length runs on into the first item. */
  lemma LargeListReads(items: seq<seq<uint8>>, tail: seq<uint8>)
    requires |items| >= 16
    ensures ReadsExactly(Full(List(items)), tail)
  {
    hide EncodeItems, EncodePieces, DecodeOne, DecodeMany, ArrayHeader, Strings, Holds;
    var b := EncodeValue(List(items)) + tail;
    var s := EncodePieces(Items(items)) + tail;
    ItemsArePieces(items);
    ItemsMeanStrings(items);
    Headed(ArrayHeader(|items|), EncodeItems(items), tail);
    var r := DecodeOne(b);
    if r.Some? && r.value.0 == MpArray(Strings(items)) {
      StringsCount(items);
      ArraySize(b, Strings(items), r.value.1);
      assert |b| >= 3 ==> b[3..] == s[2..];
      assert |b| >= 5 ==> b[5..] == s[4..];
      AheadStays(Items(items), tail, if b[0] == 0xdc then 2 else 4, r.value.1);
    }
  }

  lemma StringsCount(items: seq<seq<uint8>>)
    ensures |Strings(items)| == |items|
  {}

  lemma ItemsFit(items: seq<seq<uint8>>)
    ensures (forall p :: p in Items(items) ==> Fits(p)) <==> forall s :: s in items ==> |s| < 256
  {
    forall s | s in items ensures Short(s) in Items(items) {
      var i :| 0 <= i < |items| && items[i] == s;
      assert Items(items)[i] == Short(s);
    }
    if forall p :: p in Items(items) ==> Fits(p) {
      forall s | s in items ensures |s| < 256 {
        assert Fits(Short(s));
      }
    }
  }

  lemma ValueReads(v: Value, tail: seq<uint8>)
    requires IsOrdinary(v) && !v.Unsupported?
    ensures ReadsExactly(Full(v), tail)
  {
    hide DecodeOne;
    match v
    case Text(s) => LongStringReads(s, tail);
    case Flag(b) => FlagReads(b, tail);
    case Number(whole, float64) => NumberReads(whole, float64, tail);
    case List(items) =>
      if |items| < 16 {
        SmallListReads(items, tail);
      } else {
        LargeListReads(items, tail);
      }
  }

  lemma FlagReads(b: bool, tail: seq<uint8>)
    ensures DecodeOne(EncodeValue(Flag(b)) + tail) == Some((MpBool(b), tail))
  {
    assert (EncodeValue(Flag(b)) + tail)[1..] == tail;
  }

  // ---------- Objects ----------

  lemma {:induction false} PiecesComeFrom(ms: seq<Member>, p: Piece)
    ensures p in Pieces(ms) <==> exists m :: m in ms && p in MemberPieces(m)
  {
    hide MemberPieces;
    if ms != [] {
      var before, last := ms[..|ms| - 1], ms[|ms| - 1];
      PiecesComeFrom(before, p);
      assert ms == before + [last];
    }
  }

  lemma MemberPiecesSize(m: Member)
    ensures |MemberPieces(m)| == (if m.value.Unsupported? then 1 else 2) && MemberPieces(m)[0].Short?
  {}

  lemma {:induction false} PiecesSize(ms: seq<Member>)
    ensures |Pieces(ms)| <= 2 * |ms|
    ensures |Pieces(ms)| == 2 * |ms| <==> forall m :: m in ms ==> !m.value.Unsupported?
    ensures ms != [] ==> |ms| <= |Pieces(ms)| && Pieces(ms)[0].Short?
  {
    hide MemberPieces;
    if ms != [] {
      var before, last := ms[..|ms| - 1], ms[|ms| - 1];
      PiecesSize(before);
      MemberPiecesSize(last);
      assert forall m :: m in ms <==> m in before || m == last;
      assert before != [] ==> Pieces(ms)[0] == Pieces(before)[0];
    }
  }

  lemma ObjectPiecesRead(ms: seq<Member>)
    requires forall m :: m in ms ==> IsOrdinary(m.value)
    ensures forall p, t :: p in Pieces(ms) ==> ReadsExactly(p, t)
    ensures (forall p :: p in Pieces(ms) ==> Fits(p)) <==>
            forall m :: m in ms ==> |m.key| < 256 && (m.value.Unsupported? || Encodable(m.value))
  {
    hide ReadsExactly, IsOrdinary, Encodable, Pieces;
    forall p ensures p in Pieces(ms) <==> exists m :: m in ms && p in MemberPieces(m) {
      PiecesComeFrom(ms, p);
    }
    forall p, t | p in Pieces(ms) ensures ReadsExactly(p, t) {
      var m :| m in ms && p in MemberPieces(m);
      if p.Short? {
        ShortReadsExactly(p.s, t);
      } else {
        ValueReads(m.value, t);
      }
    }
    if forall p :: p in Pieces(ms) ==> Fits(p) {
      forall m | m in ms ensures |m.key| < 256 && (m.value.Unsupported? || Encodable(m.value)) {
        assert Short(m.key) in MemberPieces(m);
        assert Fits(Short(m.key));
        if !m.value.Unsupported? {
          assert Full(m.value) in MemberPieces(m);
          assert Fits(Full(m.value));
        }
      }
    }
  }

  lemma ShortReadsExactly(s: seq<uint8>, tail: seq<uint8>)
    ensures ReadsExactly(Short(s), tail)
  {
    hide DecodeOne, ShortString;
    ShortStringReads(s, tail);
  }

  lemma SmallObjectStarts(ms: seq<Member>, tail: seq<uint8>)
    requires |ms| < 16
    ensures var b := EncodeObject(ms) + tail;
            |b| > 0 && b[0] as int == 0x80 + |ms| && b[1..] == EncodePieces(Pieces(ms)) + tail
  {
    hide EncodeMembers, EncodePieces, Pieces, MapHeader;
    MembersArePieces(ms);
    SmallHeaders(|ms|);
    Headed(MapHeader(|ms|), EncodeMembers(ms), tail);
  }

  lemma SmallHeaders(n: nat)
    requires n < 16
    ensures MapHeader(n) as int == 0x80 + n && ArrayHeader(n) as int == 0x90 + n
  {}

  lemma Headed(h: uint8, rest: seq<uint8>, tail: seq<uint8>)
    ensures var b := [h] + rest + tail; |b| > 0 && b[0] == h && b[1..] == rest + tail
  {}

  lemma MapStarts(b: seq<uint8>, n: nat)
    requires |b| > 0 && b[0] as int == 0x80 + n && n < 16
    ensures DecodeOne(b) == match DecodeMany(b[1..], 2 * n)
                            case None => None
                            case Some(many) => Some((MpMap(many.0), many.1))
  {
    hide DecodeMany;
  }

  lemma LargeMapHeader(n: nat)
    requires 16 <= n < 128
    ensures MapHeader(n) as int >= 0x90
  {}

  lemma MapSize(b: seq<uint8>, v: seq<Mp>, rest: seq<uint8>)
    requires DecodeOne(b) == Some((MpMap(v), rest))
    ensures (b[0] < 0x90 && |v| <= 30) ||
            (b[0] == 0xde && |b| >= 3 && Holds(b[3..], |v|, v, rest)) ||
            (b[0] == 0xdf && |b| >= 5 && Holds(b[5..], |v|, v, rest))
  {
    hide DecodeOne, DecodeSeq, Holds;
    FormOf(b);
    if b[0] >= 0x90 {
      SeqHolds(b, if b[0] == 0xde then 2 else 4, true, v, rest);
    }
  }

  /** Sixteen or more members: the size read is another one, or it runs on into the first key. */
  lemma LargeObjectBreaks(ms: seq<Member>, tail: seq<uint8>)
    requires |ms| >= 16 && forall m :: m in ms ==> IsOrdinary(m.value)
    ensures DecodeOne(EncodeObject(ms) + tail) != Some((MpMap(MeaningOf(ms)), tail))
  {
    hide EncodeMembers, EncodePieces, DecodeOne, DecodeMany, MapHeader, Pieces, Holds, Separated, AreOrdinary, Lead, IsOrdinary;
    var b := EncodeObject(ms) + tail;
    var s := EncodePieces(Pieces(ms)) + tail;
    MembersArePieces(ms);
    Headed(MapHeader(|ms|), EncodeMembers(ms), tail);
    if DecodeOne(b) == Some((MpMap(MeaningOf(ms)), tail)) {
      MapSize(b, MeaningOf(ms), tail);
      PiecesSize(ms);
      if b[0] < 0x90 {
        LargeMapHeader(|ms|);
      } else {
        PiecesAreSeparated(ms);
        assert |b| >= 3 ==> b[3..] == s[2..];
        assert |b| >= 5 ==> b[5..] == s[4..];
        AheadStays(Pieces(ms), tail, if b[0] == 0xde then 2 else 4, tail);
        LeadIsPositive(Pieces(ms));
      }
    }
  }

  lemma LeadIsPositive(ps: seq<Piece>)
    ensures Lead(ps) > 0
  {}

  lemma {:induction false} PiecesAreSeparated(ms: seq<Member>)
    requires forall m :: m in ms ==> IsOrdinary(m.value)
    ensures Separated(Pieces(ms)) && AreOrdinary(Pieces(ms))
  {
    hide Slack, IsOrdinary;
    if ms != [] {
      var before, last := ms[..|ms| - 1], ms[|ms| - 1];
      PiecesAreSeparated(before);
      OneMoreSeparated(Pieces(before), last);
    }
  }

  lemma OneMoreSeparated(ps: seq<Piece>, m: Member)
    requires Separated(ps) && AreOrdinary(ps) && IsOrdinary(m.value)
    ensures Separated(ps + MemberPieces(m)) && AreOrdinary(ps + MemberPieces(m))
  {
    hide IsOrdinary;
    var more := ps + MemberPieces(m);
    forall i | 0 <= i < |more| - 1 && Slack(more[i]) ensures more[i + 1].Short? {
      if i < |ps| - 1 {
        assert Slack(ps[i]) && more[i + 1] == ps[i + 1];
      }
    }
  }

  /** A MessagePack decoder gets back every member in order and stops exactly at the object's end. */
  lemma ObjectDecodes(ms: seq<Member>, tail: seq<uint8>)
    requires EncodableObject(ms)
    ensures DecodeOne(EncodeObject(ms) + tail) == Some((MpMap(MeaningOf(ms)), tail))
  {
    hide EncodeObject, Pieces, EncodePieces, Meanings, DecodeOne, DecodeMany, ReadsExactly, Fits;
    forall m | m in ms ensures IsOrdinary(m.value) && !m.value.Unsupported? {}
    PiecesSize(ms);
    ObjectPiecesRead(ms);
    PiecesAreSeparated(ms);
    PiecesReadExactly(Pieces(ms), tail);
    SmallObjectStarts(ms, tail);
    MapStarts(EncodeObject(ms) + tail, |ms|);
  }

  /** Different objects have different encodings, and none is a proper prefix of another. */
  lemma EncodingIsPrefixFree(a: seq<Member>, b: seq<Member>, tail: seq<uint8>)
    requires EncodableObject(a) && EncodableObject(b)
    ensures EncodeObject(a) + tail == EncodeObject(b) ==> MeaningOf(a) == MeaningOf(b) && tail == []
  {
    hide EncodeObject, EncodableObject, MeaningOf, DecodeOne;
    ObjectDecodes(a, tail);
    ObjectDecodes(b, []);
    assert EncodeObject(b) + [] == EncodeObject(b);
  }

  /**
   An object of any size comes back exactly when it has at most 15 members, keys under 256 bytes, and values of the known
   kinds within their sizes; whatever follows it.
   */
  lemma ComesBackExactly(ms: seq<Member>, tail: seq<uint8>)
    requires forall m :: m in ms ==> IsOrdinary(m.value)
    ensures DecodeOne(EncodeObject(ms) + tail) == Some((MpMap(MeaningOf(ms)), tail)) <==> EncodableObject(ms)
  {
    hide EncodeObject, Pieces, EncodePieces, DecodeOne, DecodeMany, ReadsExactly, IsOrdinary, Fits, Separated, AreOrdinary, Lead;
    if EncodableObject(ms) {
      ObjectDecodes(ms, tail);
    } else if |ms| >= 16 {
      LargeObjectBreaks(ms, tail);
    } else {
      hide Encodable;
      PiecesSize(ms);
      ObjectPiecesRead(ms);
      PiecesAreSeparated(ms);
      PiecesReadExactly(Pieces(ms), tail);
      LeadIsPositive(Pieces(ms));
      SmallObjectStarts(ms, tail);
      MapStarts(EncodeObject(ms) + tail, |ms|);
      assert |Pieces(ms)| == 2 * |ms| ==> !Holds(EncodePieces(Pieces(ms)) + tail, |Pieces(ms)|, Meanings(Pieces(ms)), tail);
    }
  }

  /**
   Among objects of at most 15 members whose keys and known values fit, an object is a MessagePack value at all exactly
   when no value is of an unknown kind: such a member has a key and no value, and the bytes end too early.
   */
  lemma DecodesIffAllKnown(ms: seq<Member>)
    requires |ms| < 16
    requires forall m :: m in ms ==> |m.key| < 256 && (m.value.Unsupported? || Encodable(m.value))
    ensures DecodeOne(EncodeObject(ms)).Some? <==> forall m :: m in ms ==> !m.value.Unsupported?
  {
    hide EncodeObject, Pieces, EncodePieces, Meanings, DecodeOne, DecodeMany, ReadsExactly, Fits;
    forall m | m in ms ensures IsOrdinary(m.value) {}
    PiecesSize(ms);
    ObjectPiecesRead(ms);
    PiecesAreSeparated(ms);
    PiecesReadExactly(Pieces(ms), []);
    SmallObjectStarts(ms, []);
    assert EncodeObject(ms) + [] == EncodeObject(ms);
    MapStarts(EncodeObject(ms), |ms|);
    if |Pieces(ms)| < 2 * |ms| {
      NoNextItem(EncodePieces(Pieces(ms)) + [], |Pieces(ms)|, Meanings(Pieces(ms)), 2 * |ms|);
    }
  }
}
