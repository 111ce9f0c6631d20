/**
 The part of MessagePack that the payment types use: unsigned integers, `bin`, arrays and nil.
 Encoding always picks the shortest form. Parsing accepts every width of each format, also
 the signed integer formats when the value is not negative; any other format is a parse failure.
 */
module MsgPack {
  import opened Bytes

  datatype Value =
    | Nil
    | UInt(n: uint64)
    | Bin(data: Bytes)
    | Array(items: seq<Value>)

  /** What a value starts with: its format, and its number or length. */
  datatype Header = NilHeader | IntHeader(n: uint64) | BinHeader(len: uint32) | ArrayHeader(len: uint32)

  datatype ParsedHeader = NoHeader | HeaderThen(header: Header, rest: Bytes)
  datatype Parsed = Fail | Done(value: Value, rest: Bytes)
  datatype ParsedItems = FailItems | DoneItems(items: seq<Value>, rest: Bytes)

  const MAX_LENGTH: nat := 0x1_0000_0000

  /** Lengths fit MessagePack's 32-bit length fields, at every level. */
  predicate Encodable(v: Value) {
    match v
    case Bin(data) => |data| < MAX_LENGTH
    case Array(items) => |items| < MAX_LENGTH && forall x | x in items :: Encodable(x)
    case _ => true
  }

  // ----- headers -----

  lemma Widths()
    ensures Pow256(1) == 0x100 && Pow256(2) == 0x1_0000 && Pow256(4) == 0x1_0000_0000
    ensures Pow256(8) == 0x1_0000_0000_0000_0000
  {
    assert Pow256(4) == 0x1_0000_0000;
  }

  /** A marker byte and a big-endian field. */
  function Tagged(marker: byte, n: nat, width: nat): (s: Bytes)
    requires n < Pow256(width)
    ensures |s| == 1 + width
  {
    [marker] + ToBigEndian(n, width)
  }

  function EncodeHeader(h: Header): (s: Bytes)
    ensures |s| >= 1
  {
    Widths();
    match h
    case NilHeader => [0xc0]
    case IntHeader(n) =>
      if n < 0x80 then [n]
      else if n < 0x100 then Tagged(0xcc, n, 1)
      else if n < 0x1_0000 then Tagged(0xcd, n, 2)
      else if n < 0x1_0000_0000 then Tagged(0xce, n, 4)
      else Tagged(0xcf, n, 8)
    case BinHeader(len) =>
      if len < 0x100 then Tagged(0xc4, len, 1)
      else if len < 0x1_0000 then Tagged(0xc5, len, 2)
      else Tagged(0xc6, len, 4)
    case ArrayHeader(len) =>
      if len < 0x10 then [0x90 + len]
      else if len < 0x1_0000 then Tagged(0xdc, len, 2)
      else Tagged(0xdd, len, 4)
  }

  /** How a marker byte is read: a complete header, or a field of some width still to come. */
  datatype Marker = Complete(header: Header) | Field(kind: FieldKind, width: nat) | Unsupported
  datatype FieldKind = UnsignedField | SignedField | BinField | ArrayField

  function ReadMarker(m: byte): (r: Marker)
    ensures r.Field? ==> r.width in {1, 2, 4, 8} && (r.kind in {BinField, ArrayField} ==> r.width <= 4)
  {
    if m < 0x80 then Complete(IntHeader(m))
    else if 0x90 <= m < 0xa0 then Complete(ArrayHeader(m - 0x90))
    else if m == 0xc0 then Complete(NilHeader)
    else if m == 0xc4 then Field(BinField, 1)
    else if m == 0xc5 then Field(BinField, 2)
    else if m == 0xc6 then Field(BinField, 4)
    else if m == 0xcc then Field(UnsignedField, 1)
    else if m == 0xcd then Field(UnsignedField, 2)
    else if m == 0xce then Field(UnsignedField, 4)
    else if m == 0xcf then Field(UnsignedField, 8)
    else if m == 0xd0 then Field(SignedField, 1)
    else if m == 0xd1 then Field(SignedField, 2)
    else if m == 0xd2 then Field(SignedField, 4)
    else if m == 0xd3 then Field(SignedField, 8)
    else if m == 0xdc then Field(ArrayField, 2)
    else if m == 0xdd then Field(ArrayField, 4)
    else Unsupported
  }

  lemma FieldBound(s: Bytes)
    requires |s| in {1, 2, 4, 8}
    ensures BigEndian(s) < 0x1_0000_0000_0000_0000
    ensures |s| <= 4 ==> BigEndian(s) < 0x1_0000_0000
  {
    Widths();
    BigEndianBound(s);
  }

  function ParseHeader(b: Bytes): (r: ParsedHeader)
    ensures r.HeaderThen? ==> |r.rest| < |b|
  {
    if b == [] then NoHeader else
    match ReadMarker(b[0])
    case Unsupported => NoHeader
    case Complete(h) => HeaderThen(h, b[1..])
    case Field(kind, width) =>
      if |b| < 1 + width then NoHeader else
      FieldBound(b[1..1 + width]);
      var n := BigEndian(b[1..1 + width]);
      var rest := b[1 + width..];
      match kind
      case UnsignedField => HeaderThen(IntHeader(n), rest)
      case SignedField => if b[1] < 0x80 then HeaderThen(IntHeader(n), rest) else NoHeader
      case BinField => HeaderThen(BinHeader(n), rest)
      case ArrayField => HeaderThen(ArrayHeader(n), rest)
  }

  lemma ParseTagged(marker: byte, n: nat, width: nat, rest: Bytes)
    requires n < Pow256(width)
    requires ReadMarker(marker).Field? && ReadMarker(marker).width == width && ReadMarker(marker).kind != SignedField
    ensures n < Pow256(8) && (width <= 4 ==> n < Pow256(4))
    ensures ParseHeader(Tagged(marker, n, width) + rest) == HeaderThen(
      if ReadMarker(marker).kind == BinField then BinHeader(n)
      else if ReadMarker(marker).kind == ArrayField then ArrayHeader(n)
      else IntHeader(n), rest)
  {
    Widths();
    var b := Tagged(marker, n, width) + rest;
    BigEndianOfDigits(n, width);
    assert b[1..1 + width] == ToBigEndian(n, width);
    assert b[1 + width..] == rest;
  }

  lemma HeaderRoundTrip(h: Header, rest: Bytes)
    ensures ParseHeader(EncodeHeader(h) + rest) == HeaderThen(h, rest)
  {
    Widths();
    match h
    case NilHeader =>
      assert ([0xc0] + rest)[1..] == rest;
    case IntHeader(n) =>
      if n < 0x80 { assert ([n] + rest)[1..] == rest; }
      else if n < 0x100 { ParseTagged(0xcc, n, 1, rest); }
      else if n < 0x1_0000 { ParseTagged(0xcd, n, 2, rest); }
      else if n < 0x1_0000_0000 { ParseTagged(0xce, n, 4, rest); }
      else { ParseTagged(0xcf, n, 8, rest); }
    case BinHeader(len) =>
      if len < 0x100 { ParseTagged(0xc4, len, 1, rest); }
      else if len < 0x1_0000 { ParseTagged(0xc5, len, 2, rest); }
      else { ParseTagged(0xc6, len, 4, rest); }
    case ArrayHeader(len) =>
      if len < 0x10 { assert ([0x90 + len] + rest)[1..] == rest; }
      else if len < 0x1_0000 { ParseTagged(0xdc, len, 2, rest); }
      else { ParseTagged(0xdd, len, 4, rest); }
  }

  /** Every width of a format is read, signed integers while they are not negative, and no other format is. */
  lemma ReadsEveryWidth(marker: byte, width: nat, n: nat, rest: Bytes)
    requires width in {1, 2, 4, 8} && n < Pow256(width)
    ensures var read := ParseHeader([marker] + ToBigEndian(n, width) + rest);
      && ((marker, width) in {(0xcc, 1), (0xcd, 2), (0xce, 4), (0xcf, 8)} ==> read == HeaderThen(IntHeader(n), rest))
      && ((marker, width) in {(0xd0, 1), (0xd1, 2), (0xd2, 4), (0xd3, 8)} ==>
            read == if 2 * n < Pow256(width) then HeaderThen(IntHeader(n), rest) else NoHeader)
      && ((marker, width) in {(0xc4, 1), (0xc5, 2), (0xc6, 4)} ==> read == HeaderThen(BinHeader(n), rest))
      && ((marker, width) in {(0xdc, 2), (0xdd, 4)} ==> read == HeaderThen(ArrayHeader(n), rest))
  {
    Widths();
    var b := [marker] + ToBigEndian(n, width) + rest;
    BigEndianOfDigits(n, width);
    assert b[1..1 + width] == ToBigEndian(n, width);
    assert b[1 + width..] == rest;
    TopDigit(n, width);
  }

  lemma {:induction false} TopDigit(n: nat, width: nat)
    requires width > 0 && n < Pow256(width)
    ensures ToBigEndian(n, width)[0] < 0x80 <==> 2 * n < Pow256(width)
  {
    if width == 1 {
      assert ToBigEndian(n / 256, 0) == [] && Pow256(0) == 1;
    } else {
      TopDigit(n / 256, width - 1);
      assert ToBigEndian(n, width)[0] == ToBigEndian(n / 256, width - 1)[0];
      HalfBelow(n, Pow256(width - 2));
    }
  }

  lemma HalfBelow(n: nat, p: nat)
    requires p >= 1
    ensures 2 * (n / 256) < 256 * p <==> 2 * n < 256 * (256 * p)
  {
  }

  lemma OtherFormatsFail(b: Bytes)
    requires b != [] && (0x80 <= b[0] < 0x90 || 0xa0 <= b[0] < 0xc0 || b[0] in {0xc1, 0xc2, 0xc3}
      || 0xc7 <= b[0] < 0xcc || 0xd4 <= b[0] < 0xdc || 0xde <= b[0])
    ensures Parse(b) == Fail
  {
  }

  /** A marker byte, then `n` in `width` bytes, most significant first. */
  predicate FieldOf(s: Bytes, marker: byte, width: nat, n: nat) {
    |s| == 1 + width && s[0] == marker && BigEndian(s[1..]) == n
  }

  lemma TaggedIsField(marker: byte, n: nat, width: nat)
    requires n < Pow256(width)
    ensures FieldOf(Tagged(marker, n, width), marker, width, n)
  {
    BigEndianOfDigits(n, width);
    assert Tagged(marker, n, width)[1..] == ToBigEndian(n, width);
  }

  /** The format and width of each number and length, by the ranges of the MessagePack specification. */
  lemma HeaderFormat(h: Header)
    ensures var s := EncodeHeader(h);
      match h
      case NilHeader => s == [0xc0]
      case IntHeader(n) =>
        if n <= 127 then s == [n]
        else if n <= 255 then FieldOf(s, 0xcc, 1, n)
        else if n <= 65535 then FieldOf(s, 0xcd, 2, n)
        else if n <= 4294967295 then FieldOf(s, 0xce, 4, n)
        else FieldOf(s, 0xcf, 8, n)
      case BinHeader(len) =>
        if len <= 255 then FieldOf(s, 0xc4, 1, len)
        else if len <= 65535 then FieldOf(s, 0xc5, 2, len)
        else FieldOf(s, 0xc6, 4, len)
      case ArrayHeader(len) =>
        if len <= 15 then s == [144 + len]
        else if len <= 65535 then FieldOf(s, 0xdc, 2, len)
        else FieldOf(s, 0xdd, 4, len)
  {
    Widths();
    match h
    case NilHeader =>
    case IntHeader(n) =>
      if 0x80 <= n {
        if n < 0x100 { TaggedIsField(0xcc, n, 1); }
        else if n < 0x1_0000 { TaggedIsField(0xcd, n, 2); }
        else if n < 0x1_0000_0000 { TaggedIsField(0xce, n, 4); }
        else { TaggedIsField(0xcf, n, 8); }
      }
    case BinHeader(len) =>
      if len < 0x100 { TaggedIsField(0xc4, len, 1); }
      else if len < 0x1_0000 { TaggedIsField(0xc5, len, 2); }
      else { TaggedIsField(0xc6, len, 4); }
    case ArrayHeader(len) =>
      if 0x10 <= len {
        if len < 0x1_0000 { TaggedIsField(0xdc, len, 2); }
        else { TaggedIsField(0xdd, len, 4); }
      }
  }

  lemma HeaderExtends(b: Bytes, more: Bytes)
    requires ParseHeader(b).HeaderThen?
    ensures ParseHeader(b + more) == HeaderThen(ParseHeader(b).header, ParseHeader(b).rest + more)
  {
    match ReadMarker(b[0])
    case Complete(_) =>
      assert (b + more)[1..] == b[1..] + more;
    case Field(_, width) =>
      assert (b + more)[1..1 + width] == b[1..1 + width];
      assert (b + more)[1 + width..] == b[1 + width..] + more;
  }

  lemma HeaderShortest(b: Bytes)
    requires ParseHeader(b).HeaderThen?
    ensures |EncodeHeader(ParseHeader(b).header)| + |ParseHeader(b).rest| <= |b|
  {
    Widths();
    match ReadMarker(b[0])
    case Complete(_) =>
    case Field(_, width) => BigEndianBound(b[1..1 + width]);
  }

  // ----- values -----

  function Encode(v: Value): (s: Bytes)
    requires Encodable(v)
    ensures |s| >= 1
    decreases v, 0
  {
    match v
    case Nil => EncodeHeader(NilHeader)
    case UInt(n) => EncodeHeader(IntHeader(n))
    case Bin(data) => EncodeHeader(BinHeader(|data|)) + data
    case Array(items) => EncodeHeader(ArrayHeader(|items|)) + EncodeItems(items)
  }

  function EncodeItems(items: seq<Value>): Bytes
    requires forall x | x in items :: Encodable(x)
    decreases items, 1
  {
    if items == [] then [] else Encode(items[0]) + EncodeItems(items[1..])
  }

  function Parse(b: Bytes): (r: Parsed)
    ensures r.Done? ==> |r.rest| < |b| && Encodable(r.value)
    decreases |b|, 0
  {
    match ParseHeader(b)
    case NoHeader => Fail
    case HeaderThen(NilHeader, rest) => Done(Nil, rest)
    case HeaderThen(IntHeader(n), rest) => Done(UInt(n), rest)
    case HeaderThen(BinHeader(len), rest) =>
      if |rest| < len then Fail else Done(Bin(rest[..len]), rest[len..])
    case HeaderThen(ArrayHeader(len), rest) =>
      match ParseItems(rest, len)
      case FailItems => Fail
      case DoneItems(items, rest') => Done(Array(items), rest')
  }

  function ParseItems(b: Bytes, count: nat): (r: ParsedItems)
    ensures r.DoneItems? ==> |r.rest| <= |b| && |r.items| == count && forall x | x in r.items :: Encodable(x)
    decreases |b|, 1
  {
    if count == 0 then DoneItems([], b) else
    match Parse(b)
    case Fail => FailItems
    case Done(first, rest) =>
      match ParseItems(rest, count - 1)
      case FailItems => FailItems
      case DoneItems(others, rest') => DoneItems([first] + others, rest')
  }

  lemma {:induction false} BinSelfDelimiting(data: Bytes, rest: Bytes)
    requires |data| < MAX_LENGTH
    ensures Parse(Encode(Bin(data)) + rest) == Done(Bin(data), rest)
  {
    var header := EncodeHeader(BinHeader(|data|));
    HeaderRoundTrip(BinHeader(|data|), data + rest);
    assert header + data + rest == header + (data + rest);
  }

  lemma {:induction false} ArraySelfDelimiting(items: seq<Value>, rest: Bytes)
    requires |items| < MAX_LENGTH && forall x | x in items :: Encodable(x)
    requires ParseItems(EncodeItems(items) + rest, |items|) == DoneItems(items, rest)
    ensures Parse(Encode(Array(items)) + rest) == Done(Array(items), rest)
  {
    var header, content := EncodeHeader(ArrayHeader(|items|)), EncodeItems(items);
    HeaderRoundTrip(ArrayHeader(|items|), content + rest);
    Regroup(header, content, rest);
    ParseArray(header + (content + rest), |items|, content + rest);
  }

  lemma {:induction false} ParseArray(b: Bytes, len: nat, rest: Bytes)
    requires len < MAX_LENGTH && ParseHeader(b) == HeaderThen(ArrayHeader(len), rest)
    requires ParseItems(rest, len).DoneItems?
    ensures Parse(b) == Done(Array(ParseItems(rest, len).items), ParseItems(rest, len).rest)
  {
  }

  /** Every encoding tells where it ends: what follows it is returned untouched. */
  lemma {:induction false} SelfDelimiting(v: Value, rest: Bytes)
    requires Encodable(v)
    ensures Parse(Encode(v) + rest) == Done(v, rest)
    decreases v, 0
  {
    match v
    case Nil => HeaderRoundTrip(NilHeader, rest);
    case UInt(n) => HeaderRoundTrip(IntHeader(n), rest);
    case Bin(data) => BinSelfDelimiting(data, rest);
    case Array(items) =>
      ItemsSelfDelimiting(items, rest);
      ArraySelfDelimiting(items, rest);
  }

  lemma {:induction false} ItemsSelfDelimiting(items: seq<Value>, rest: Bytes)
    requires forall x | x in items :: Encodable(x)
    ensures ParseItems(EncodeItems(items) + rest, |items|) == DoneItems(items, rest)
    decreases items, 1
  {
    if items == [] {
      assert EncodeItems(items) + rest == rest;
    } else {
      SelfDelimiting(items[0], EncodeItems(items[1..]) + rest);
      ItemsSelfDelimiting(items[1..], rest);
      assert Encode(items[0]) + EncodeItems(items[1..]) + rest == Encode(items[0]) + (EncodeItems(items[1..]) + rest);
      assert [items[0]] + items[1..] == items;
    }
  }

  /** The elements of an array follow its header one after the other, in order. */
  lemma {:induction false} ItemsInOrder(items: seq<Value>, x: Value)
    requires Encodable(x) && forall v | v in items :: Encodable(v)
    ensures forall v | v in items + [x] :: Encodable(v)
    ensures EncodeItems([]) == [] && EncodeItems(items + [x]) == EncodeItems(items) + Encode(x)
  {
    if items == [] {
      assert items + [x] == [x] && [x][1..] == [];
    } else {
      var first, others := items[0], items[1..];
      assert (items + [x])[1..] == others + [x];
      ItemsInOrder(others, x);
      Regroup(Encode(first), EncodeItems(others), Encode(x));
    }
  }

  /** A string or an array is its header, with its length, and then its contents. */
  lemma ContentsFollowHeader(data: Bytes, items: seq<Value>)
    requires |data| < 0x1_0000_0000 && |items| < 0x1_0000_0000 && forall v | v in items :: Encodable(v)
    ensures Encode(Nil) == EncodeHeader(NilHeader)
    ensures Encode(Bin(data)) == EncodeHeader(BinHeader(|data|)) + data
    ensures Encode(Array(items)) == EncodeHeader(ArrayHeader(|items|)) + EncodeItems(items)
  {
  }

  /** More input never changes a successful parse; it is left over. */
  lemma {:induction false} ParseExtends(b: Bytes, more: Bytes)
    requires Parse(b).Done?
    ensures Parse(b + more) == Done(Parse(b).value, Parse(b).rest + more)
    decreases |b|, 0
  {
    HeaderExtends(b, more);
    var rest := ParseHeader(b).rest;
    match ParseHeader(b).header
    case NilHeader =>
    case IntHeader(_) =>
    case BinHeader(len) =>
      assert (rest + more)[..len] == rest[..len];
      assert (rest + more)[len..] == rest[len..] + more;
    case ArrayHeader(len) =>
      ItemsExtend(rest, len, more);
  }

  lemma {:induction false} ItemsExtend(b: Bytes, count: nat, more: Bytes)
    requires ParseItems(b, count).DoneItems?
    ensures ParseItems(b + more, count) == DoneItems(ParseItems(b, count).items, ParseItems(b, count).rest + more)
    decreases |b|, 1
  {
    if count > 0 {
      ParseExtends(b, more);
      ItemsExtend(Parse(b).rest, count - 1, more);
    }
  }

  /** A cut encoding is always rejected, wherever the cut falls. */
  lemma TruncationRejected(v: Value, cut: nat)
    requires Encodable(v) && cut < |Encode(v)|
    ensures Parse(Encode(v)[..cut]) == Fail
  {
    var b, more := Encode(v)[..cut], Encode(v)[cut..];
    if Parse(b).Done? {
      ParseExtends(b, more);
      assert b + more == Encode(v) == Encode(v) + [];
      SelfDelimiting(v, []);
    }
  }

  /** No accepted input spells a value in fewer bytes than its encoding. */
  lemma {:induction false} EncodingIsShortest(b: Bytes)
    requires Parse(b).Done?
    ensures |Encode(Parse(b).value)| + |Parse(b).rest| <= |b|
    decreases |b|, 0
  {
    HeaderShortest(b);
    if ParseHeader(b).header.ArrayHeader? {
      ItemsShortest(ParseHeader(b).rest, ParseHeader(b).header.len);
    }
  }

  lemma {:induction false} ItemsShortest(b: Bytes, count: nat)
    requires ParseItems(b, count).DoneItems?
    ensures |EncodeItems(ParseItems(b, count).items)| + |ParseItems(b, count).rest| <= |b|
    decreases |b|, 1
  {
    if count > 0 {
      var first, rest := Parse(b).value, Parse(b).rest;
      var others := ParseItems(rest, count - 1).items;
      EncodingIsShortest(b);
      ItemsShortest(rest, count - 1);
      assert ([first] + others)[1..] == others;
      assert EncodeItems([first] + others) == Encode(first) + EncodeItems(others);
    }
  }
}
