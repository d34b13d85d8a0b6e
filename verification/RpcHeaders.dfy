/** The two headers of a remote call, their serialisation and their parsers. */
module RpcHeaders {
  import opened ProtobufWire

  datatype Request = Request(serviceName: Bytes, methodName: Bytes, argsSize: nat)

  datatype Response = Response(status: int, message: Bytes, argsSize: int)

  /** What a parser leaves in the header, and whether it took all of the input for well-formed. Neither
      stub looks at the second. */
  datatype Parsed<H> = Parsed(header: H, ok: bool)

  const NO_REQUEST := Request([], [], 0)
  const NO_RESPONSE := Response(0, [], 0)

  // ----- Parts both have in common -----

  /** A string field is written unless it is empty. */
  function StringField(tag: Byte, s: Bytes): Bytes {
    if s == [] then [] else [tag] + WriteString(s)
  }

  lemma TagRoundTrip(tag: Byte, rest: Bytes)
    requires tag < 128
    ensures ReadTag([tag] + rest) == Got(tag, rest)
  {
    assert ([tag] + rest)[1..] == rest;
  }

  lemma StringFieldSize(tag: Byte, s: Bytes)
    requires |s| < TWO_31
    ensures |StringField(tag, s)| == if s == [] then 0 else 1 + VarintSize32(|s|) + |s|
  {
    VarintSize32IsLength(|s|);
  }

  // ----- The fields of a message, whatever message it is -----

  /** A field by its number; `Number` is a varint, `Text` is length-delimited. */
  datatype Field = Number(number: nat, value: nat) | Text(number: nat, text: Bytes)

  /** The tag of a field is eight times its number plus its wire type. */
  function ReadField(bytes: Bytes): (r: Read<Field>)
    ensures r.Got? ==> |r.rest| < |bytes|
  {
    ReadShortens(bytes, TWO_32);
    match ReadTag(bytes)
    case Malformed => Malformed
    case Got(tag, rest) =>
      if tag / 8 == 0 then Malformed
      else if tag % 8 == 0 then
        ReadShortens(rest, TWO_64);
        match ReadVarint(rest, TWO_64)
        case Malformed => Malformed
        case Got(n, rest') => Got(Number(tag / 8, n), rest')
      else if tag % 8 == 2 then
        ReadStringShortens(rest);
        match ReadString(rest)
        case Whole(s, rest') => Got(Text(tag / 8, s), rest')
        case _ => Malformed
      else Malformed
  }

  ghost predicate HasFields(bytes: Bytes, fields: seq<Field>)
    decreases |bytes|
  {
    if fields == [] then bytes == []
    else
      var r := ReadField(bytes);
      r.Got? && r.value == fields[0] && HasFields(r.rest, fields[1..])
  }

  function TextField(number: nat, s: Bytes): seq<Field> {
    if s == [] then [] else [Text(number, s)]
  }

  function NumberField(number: nat, n: nat): seq<Field> {
    if n == 0 then [] else [Number(number, n)]
  }

  lemma StringFieldRead(number: nat, s: Bytes, rest: Bytes, fields: seq<Field>)
    requires 0 < number < 16 && |s| < TWO_31 && HasFields(rest, fields)
    ensures HasFields(StringField(8 * number + 2, s) + rest, TextField(number, s) + fields)
  {
    hide WriteString, ReadTag, ReadString;
    var tag: Byte := 8 * number + 2;
    if s == [] {
      assert StringField(tag, s) + rest == rest && TextField(number, s) + fields == fields;
    } else {
      TagRoundTrip(tag, WriteString(s) + rest);
      assert [tag] + (WriteString(s) + rest) == StringField(tag, s) + rest;
      StringRoundTrip(s, rest);
      assert ([Text(number, s)] + fields)[1..] == fields;
    }
  }

  lemma NumberFieldRead(number: nat, n: nat, rest: Bytes, fields: seq<Field>)
    requires 0 < number < 16 && n < TWO_64 && HasFields(rest, fields)
    ensures HasFields((if n == 0 then [] else [8 * number] + WriteVarint(n)) + rest, NumberField(number, n) + fields)
  {
    hide WriteVarint, ReadTag, ReadVarint;
    var tag: Byte := 8 * number;
    var none: Bytes := [];
    if n == 0 {
      assert none + rest == rest && NumberField(number, n) + fields == fields;
    } else {
      TagRoundTrip(tag, WriteVarint(n) + rest);
      assert [tag] + (WriteVarint(n) + rest) == [tag] + WriteVarint(n) + rest;
      VarintRoundTrip(n, TWO_64, rest);
      assert ([Number(number, n)] + fields)[1..] == fields;
    }
  }

  lemma LastNumberField(number: nat, n: nat)
    requires 0 < number < 16 && n < TWO_64
    ensures HasFields(if n == 0 then [] else [8 * number] + WriteVarint(n), NumberField(number, n))
  {
    hide WriteVarint;
    NumberFieldRead(number, n, [], []);
    var bytes := if n == 0 then [] else [8 * number] + WriteVarint(n);
    assert bytes + [] == bytes && NumberField(number, n) + [] == NumberField(number, n);
  }

  lemma Regroup<T>(a: seq<T>, b: seq<T>, c: seq<T>)
    ensures a + (b + c) == a + b + c
  {
  }

  // ----- RpcHeader -----

  ghost predicate RequestFits(h: Request) {
    |h.serviceName| < TWO_31 && |h.methodName| < TWO_31 && h.argsSize < TWO_32
  }

  function EncodeRequest(h: Request): Bytes {
    StringField(10, h.serviceName) + StringField(18, h.methodName)
    + if h.argsSize == 0 then [] else [24] + WriteVarint(h.argsSize)
  }

  /** As the message definition numbers them: service name 1, method name 2, size of the arguments 3. */
  lemma RequestFields(h: Request)
    requires RequestFits(h)
    ensures HasFields(EncodeRequest(h),
                      TextField(1, h.serviceName) + TextField(2, h.methodName) + NumberField(3, h.argsSize))
  {
    var service, name := StringField(10, h.serviceName), StringField(18, h.methodName);
    var size: Bytes := if h.argsSize == 0 then [] else [24] + WriteVarint(h.argsSize);
    var f1, f2, f3 := TextField(1, h.serviceName), TextField(2, h.methodName), NumberField(3, h.argsSize);
    LastNumberField(3, h.argsSize);
    hide StringField, WriteVarint, TextField, NumberField, HasFields;
    StringFieldRead(2, h.methodName, size, f3);
    StringFieldRead(1, h.serviceName, name + size, f2 + f3);
    Regroup(service, name, size);
    Regroup(f1, f2, f3);
  }

  /** The parse loop: fields are set one after the other, in whatever order they come, on top of `h`. */
  function ParseRequest(bytes: Bytes, h: Request): Parsed<Request>
    decreases |bytes|
  {
    if bytes == [] then Parsed(h, true)
    else
      ReadShortens(bytes, TWO_32);
      match ReadTag(bytes)
      case Malformed => Parsed(h, false)
      case Got(tag, rest) =>
        if tag == 10 then
          ReadStringShortens(rest);
          match ReadString(rest)
          case NoLength => Parsed(h, false)
          case Cut(s) => Parsed(h.(serviceName := s), false)
          case Whole(s, rest') =>
            if ValidUtf8(s) then ParseRequest(rest', h.(serviceName := s)) else Parsed(h.(serviceName := s), false)
        else if tag == 18 then
          ReadStringShortens(rest);
          match ReadString(rest)
          case NoLength => Parsed(h, false)
          case Cut(s) => Parsed(h.(methodName := s), false)
          case Whole(s, rest') =>
            if ValidUtf8(s) then ParseRequest(rest', h.(methodName := s)) else Parsed(h.(methodName := s), false)
        else if tag == 24 then
          ReadShortens(rest, TWO_32);
          match ReadVarint(rest, TWO_32)
          case Malformed => Parsed(h, false)
          case Got(n, rest') => ParseRequest(rest', h.(argsSize := n))
        else if EndsMessage(tag) then Parsed(h, false)
        else
          match SkipField(tag, rest, RECURSION_LIMIT)
          case Malformed => Parsed(h, false)
          case Got(_, rest') => ParseRequest(rest', h)
  }

  /** The fields of `h` that are on the wire, on top of those of `base`. */
  function OverlayRequest(base: Request, h: Request): Request {
    Request(if h.serviceName == [] then base.serviceName else h.serviceName,
            if h.methodName == [] then base.methodName else h.methodName,
            if h.argsSize == 0 then base.argsSize else h.argsSize)
  }

  lemma ParseServiceName(s: Bytes, rest: Bytes, h: Request)
    requires |s| < TWO_31 && s != []
    ensures ParseRequest(StringField(10, s) + rest, h) ==
            if ValidUtf8(s) then ParseRequest(rest, h.(serviceName := s)) else Parsed(h.(serviceName := s), false)
  {
    TagRoundTrip(10, WriteString(s) + rest);
    assert [10] + (WriteString(s) + rest) == StringField(10, s) + rest;
    StringRoundTrip(s, rest);
  }

  lemma ParseMethodName(s: Bytes, rest: Bytes, h: Request)
    requires |s| < TWO_31 && s != []
    ensures ParseRequest(StringField(18, s) + rest, h) ==
            if ValidUtf8(s) then ParseRequest(rest, h.(methodName := s)) else Parsed(h.(methodName := s), false)
  {
    TagRoundTrip(18, WriteString(s) + rest);
    assert [18] + (WriteString(s) + rest) == StringField(18, s) + rest;
    StringRoundTrip(s, rest);
  }

  lemma ParseRequestArgsSize(n: nat, rest: Bytes, h: Request)
    requires 0 < n < TWO_32
    ensures ParseRequest([24] + WriteVarint(n) + rest, h) == ParseRequest(rest, h.(argsSize := n))
  {
    TagRoundTrip(24, WriteVarint(n) + rest);
    assert [24] + (WriteVarint(n) + rest) == [24] + WriteVarint(n) + rest;
    VarintRoundTrip(n, TWO_32, rest);
  }

  /**
    A serialised header in front of anything: parsing it merges it into `base` and goes on behind it.
    A name that is not UTF-8 stops the parser with that name set and everything behind it unread.
   */
  lemma ParseEncodedRequest(h: Request, rest: Bytes, base: Request)
    requires RequestFits(h)
    ensures ParseRequest(EncodeRequest(h) + rest, base) ==
            var named := OverlayRequest(base, Request(h.serviceName, [], 0));
            if !ValidUtf8(h.serviceName) then Parsed(named, false)
            else if !ValidUtf8(h.methodName) then Parsed(named.(methodName := h.methodName), false)
            else ParseRequest(rest, OverlayRequest(base, h))
  {
    hide ParseRequest, ValidUtf8, WriteString, WriteVarint;
    EmptyIsUtf8();
    var named := OverlayRequest(base, Request(h.serviceName, [], 0));
    var service, name := StringField(10, h.serviceName), StringField(18, h.methodName);
    var size: Bytes := if h.argsSize == 0 then [] else [24] + WriteVarint(h.argsSize);
    assert EncodeRequest(h) + rest == service + (name + (size + rest));
    if h.serviceName != [] {
      ParseServiceName(h.serviceName, name + (size + rest), base);
    } else {
      assert service + (name + (size + rest)) == name + (size + rest);
    }
    if ValidUtf8(h.serviceName) {
      if h.methodName != [] {
        ParseMethodName(h.methodName, size + rest, named);
      } else {
        assert name + (size + rest) == size + rest;
      }
      if ValidUtf8(h.methodName) {
        if h.argsSize != 0 {
          ParseRequestArgsSize(h.argsSize, rest, OverlayRequest(named, Request([], h.methodName, 0)));
        } else {
          assert size + rest == rest;
        }
      }
    }
  }

  lemma EmptyIsUtf8()
    ensures ValidUtf8([])
  {
  }

  /** Parsing undoes serialising exactly for names in UTF-8. */
  lemma RequestRoundTrip(h: Request)
    requires RequestFits(h)
    ensures ParseRequest(EncodeRequest(h), NO_REQUEST) == Parsed(h, true) <==>
            ValidUtf8(h.serviceName) && ValidUtf8(h.methodName)
  {
    assert EncodeRequest(h) + [] == EncodeRequest(h);
    ParseEncodedRequest(h, [], NO_REQUEST);
  }

  function RequestSize(h: Request): nat {
    (if h.serviceName == [] then 0 else 1 + VarintSize32(|h.serviceName|) + |h.serviceName|)
    + (if h.methodName == [] then 0 else 1 + VarintSize32(|h.methodName|) + |h.methodName|)
    + if h.argsSize == 0 then 0 else 1 + VarintSize32(h.argsSize)
  }

  lemma RequestSizeIsLength(h: Request)
    requires RequestFits(h)
    ensures RequestSize(h) == |EncodeRequest(h)|
  {
    StringFieldSize(10, h.serviceName);
    StringFieldSize(18, h.methodName);
    VarintSize32IsLength(h.argsSize);
  }

  /** A field that the message does not define is skipped whole, whatever its type. */
  lemma UnknownFieldIgnored(number: nat, wire: nat, body: Bytes, rest: Bytes, h: Request)
    requires 4 <= number < 16 && wire < 8 && IsFieldBody(wire, body)
    ensures ParseRequest([8 * number + wire] + body + rest, h) == ParseRequest(rest, h)
  {
    hide ReadTag, SkipField, ParseRequest;
    var tag: Byte := 8 * number + wire;
    assert tag % 8 == wire && tag / 8 == number && wire != 4;
    hide IsFieldBody;
    TagRoundTrip(tag, body + rest);
    assert [tag] + (body + rest) == [tag] + body + rest;
    SkipWhole(tag, body, rest, RECURSION_LIMIT);
    StepOver([tag] + body + rest, tag, body + rest, rest, h);
  }

  lemma StepOver(bytes: Bytes, tag: nat, behind: Bytes, rest: Bytes, h: Request)
    requires bytes != [] && ReadTag(bytes) == Got(tag, behind) && tag / 8 >= 4 && !EndsMessage(tag)
    requires SkipField(tag, behind, RECURSION_LIMIT) == Got((), rest)
    ensures ParseRequest(bytes, h) == ParseRequest(rest, h)
  {
    hide ReadTag, SkipField, ReadVarint, ReadString, ValidUtf8;
  }

  // ----- RpcResponseHeader -----

  ghost predicate ResponseFits(h: Response) {
    IsInt32(h.status) && |h.message| < TWO_31 && IsInt32(h.argsSize)
  }

  function Int32Field(tag: Byte, v: int): Bytes
    requires IsInt32(v)
  {
    if v == 0 then [] else [tag] + WriteInt32(v)
  }

  function EncodeResponse(h: Response): Bytes
    requires IsInt32(h.status) && IsInt32(h.argsSize)
  {
    Int32Field(8, h.status) + StringField(18, h.message) + Int32Field(24, h.argsSize)
  }

  /** A negative number is written as a 64-bit one. */
  function Unsigned(v: int): nat
    requires IsInt32(v)
  {
    if v < 0 then v + TWO_64 else v
  }

  /** Status 1, message 2, size of the result 3. */
  lemma ResponseFields(h: Response)
    requires ResponseFits(h)
    ensures HasFields(EncodeResponse(h),
                      NumberField(1, Unsigned(h.status)) + TextField(2, h.message)
                      + NumberField(3, Unsigned(h.argsSize)))
  {
    var status, text, size := Int32Field(8, h.status), StringField(18, h.message), Int32Field(24, h.argsSize);
    var f1, f2, f3 := NumberField(1, Unsigned(h.status)), TextField(2, h.message), NumberField(3, Unsigned(h.argsSize));
    LastNumberField(3, Unsigned(h.argsSize));
    hide StringField, WriteVarint, TextField, NumberField, HasFields;
    StringFieldRead(2, h.message, size, f3);
    NumberFieldRead(1, Unsigned(h.status), text + size, f2 + f3);
    Regroup(status, text, size);
    Regroup(f1, f2, f3);
  }

  function ParseResponse(bytes: Bytes, h: Response): Parsed<Response>
    decreases |bytes|
  {
    if bytes == [] then Parsed(h, true)
    else
      ReadShortens(bytes, TWO_32);
      match ReadTag(bytes)
      case Malformed => Parsed(h, false)
      case Got(tag, rest) =>
        if tag == 8 then
          ReadShortens(rest, TWO_64);
          match ReadInt32(rest)
          case Malformed => Parsed(h, false)
          case Got(v, rest') => ParseResponse(rest', h.(status := v))
        else if tag == 18 then
          ReadStringShortens(rest);
          match ReadString(rest)
          case NoLength => Parsed(h, false)
          case Cut(s) => Parsed(h.(message := s), false)
          case Whole(s, rest') =>
            if ValidUtf8(s) then ParseResponse(rest', h.(message := s)) else Parsed(h.(message := s), false)
        else if tag == 24 then
          ReadShortens(rest, TWO_64);
          match ReadInt32(rest)
          case Malformed => Parsed(h, false)
          case Got(v, rest') => ParseResponse(rest', h.(argsSize := v))
        else if EndsMessage(tag) then Parsed(h, false)
        else
          match SkipField(tag, rest, RECURSION_LIMIT)
          case Malformed => Parsed(h, false)
          case Got(_, rest') => ParseResponse(rest', h)
  }

  function OverlayResponse(base: Response, h: Response): Response {
    Response(if h.status == 0 then base.status else h.status,
             if h.message == [] then base.message else h.message,
             if h.argsSize == 0 then base.argsSize else h.argsSize)
  }

  lemma ParseStatus(v: int, rest: Bytes, h: Response)
    requires IsInt32(v) && v != 0
    ensures ParseResponse(Int32Field(8, v) + rest, h) == ParseResponse(rest, h.(status := v))
  {
    TagRoundTrip(8, WriteInt32(v) + rest);
    assert [8] + (WriteInt32(v) + rest) == Int32Field(8, v) + rest;
    Int32RoundTrip(v, rest);
  }

  lemma ParseMessage(s: Bytes, rest: Bytes, h: Response)
    requires |s| < TWO_31 && s != []
    ensures ParseResponse(StringField(18, s) + rest, h) ==
            if ValidUtf8(s) then ParseResponse(rest, h.(message := s)) else Parsed(h.(message := s), false)
  {
    TagRoundTrip(18, WriteString(s) + rest);
    assert [18] + (WriteString(s) + rest) == StringField(18, s) + rest;
    StringRoundTrip(s, rest);
  }

  lemma ParseResponseArgsSize(v: int, rest: Bytes, h: Response)
    requires IsInt32(v) && v != 0
    ensures ParseResponse(Int32Field(24, v) + rest, h) == ParseResponse(rest, h.(argsSize := v))
  {
    TagRoundTrip(24, WriteInt32(v) + rest);
    assert [24] + (WriteInt32(v) + rest) == Int32Field(24, v) + rest;
    Int32RoundTrip(v, rest);
  }

  lemma ParseEncodedResponse(h: Response, rest: Bytes, base: Response)
    requires ResponseFits(h)
    ensures ParseResponse(EncodeResponse(h) + rest, base) ==
            if !ValidUtf8(h.message) then Parsed(OverlayResponse(base, h).(argsSize := base.argsSize), false)
            else ParseResponse(rest, OverlayResponse(base, h))
  {
    hide ParseResponse, ValidUtf8, WriteString, WriteInt32;
    EmptyIsUtf8();
    var status, text, size := Int32Field(8, h.status), StringField(18, h.message), Int32Field(24, h.argsSize);
    var withStatus := OverlayResponse(base, Response(h.status, [], 0));
    assert EncodeResponse(h) + rest == status + (text + (size + rest));
    if h.status != 0 {
      ParseStatus(h.status, text + (size + rest), base);
    } else {
      assert status + (text + (size + rest)) == text + (size + rest);
    }
    if h.message != [] {
      ParseMessage(h.message, size + rest, withStatus);
    } else {
      assert text + (size + rest) == size + rest;
    }
    if ValidUtf8(h.message) {
      if h.argsSize != 0 {
        ParseResponseArgsSize(h.argsSize, rest, OverlayResponse(withStatus, Response(0, h.message, 0)));
      } else {
        assert size + rest == rest;
      }
    }
  }

  lemma ResponseRoundTrip(h: Response)
    requires ResponseFits(h)
    ensures ParseResponse(EncodeResponse(h), NO_RESPONSE) == Parsed(h, true) <==> ValidUtf8(h.message)
  {
    assert EncodeResponse(h) + [] == EncodeResponse(h);
    ParseEncodedResponse(h, [], NO_RESPONSE);
  }

  function ResponseSize(h: Response): nat
    requires IsInt32(h.status) && IsInt32(h.argsSize)
  {
    (if h.message == [] then 0 else 1 + VarintSize32(|h.message|) + |h.message|)
    + (if h.status == 0 then 0 else 1 + Int32Size(h.status))
    + if h.argsSize == 0 then 0 else 1 + Int32Size(h.argsSize)
  }

  lemma ResponseSizeIsLength(h: Response)
    requires ResponseFits(h)
    ensures ResponseSize(h) == |EncodeResponse(h)|
  {
    StringFieldSize(18, h.message);
    Int32SizeIsLength(h.status);
    Int32SizeIsLength(h.argsSize);
  }

  // ----- The message objects -----

  class RpcHeader {
    var serviceName: Bytes
    var methodName: Bytes
    var argsSize: nat

    function Value(): Request
      reads this
    {
      Request(serviceName, methodName, argsSize)
    }

    constructor ()
      ensures Value() == NO_REQUEST
    {
      serviceName, methodName, argsSize := [], [], 0;
    }

    method Clear()
      modifies this
      ensures Value() == NO_REQUEST
    {
      serviceName, methodName, argsSize := [], [], 0;
    }

    /** The parse loop: one field each time round, set as it is read. */
    method MergeFromStream(bytes: Bytes) returns (ok: bool)
      modifies this
      ensures Parsed(Value(), ok) == ParseRequest(bytes, old(Value()))
    {
      var input := bytes;
      while input != []
        invariant ParseRequest(bytes, old(Value())) == ParseRequest(input, Value())
        decreases |input|
      {
        ReadShortens(input, TWO_32);
        var t := ReadTag(input);
        if t.Malformed? {
          return false;
        }
        var tag, rest := t.value, t.rest;
        if tag == 10 || tag == 18 {
          ReadStringShortens(rest);
          var s := ReadString(rest);
          if s.NoLength? {
            return false;
          }
          var text := if s.Whole? then s.value else s.available;
          if tag == 10 {
            serviceName := text;
          } else {
            methodName := text;
          }
          if s.Cut? || !ValidUtf8(text) {
            return false;
          }
          input := s.rest;
        } else if tag == 24 {
          ReadShortens(rest, TWO_32);
          var n := ReadVarint(rest, TWO_32);
          if n.Malformed? {
            return false;
          }
          argsSize, input := n.value, n.rest;
        } else if EndsMessage(tag) {
          return false;
        } else {
          var r := SkipField(tag, rest, RECURSION_LIMIT);
          if r.Malformed? {
            return false;
          }
          input := r.rest;
        }
      }
      ok := true;
    }

    method ParseFromString(bytes: Bytes) returns (ok: bool)
      modifies this
      ensures Parsed(Value(), ok) == ParseRequest(bytes, NO_REQUEST)
    {
      Clear();
      ok := MergeFromStream(bytes);
    }

    method SerializeToString() returns (output: Bytes)
      ensures output == EncodeRequest(Value())
    {
      hide WriteString, WriteVarint;
      output := [];
      if |serviceName| > 0 {
        output := output + ([10] + WriteString(serviceName));
      }
      assert output == StringField(10, serviceName);
      ghost var service := output;
      if |methodName| > 0 {
        output := output + ([18] + WriteString(methodName));
      }
      assert output == service + StringField(18, methodName);
      if argsSize != 0 {
        output := output + ([24] + WriteVarint(argsSize));
      }
    }

    /** The size is computed without serialising, and is the one that serialising needs. */
    method ByteSizeLong() returns (total: nat)
      requires RequestFits(Value())
      ensures total == |EncodeRequest(Value())|
    {
      RequestSizeIsLength(Value());
      total := 0;
      if |serviceName| > 0 {
        total := total + 1 + VarintSize32(|serviceName|) + |serviceName|;
      }
      if |methodName| > 0 {
        total := total + 1 + VarintSize32(|methodName|) + |methodName|;
      }
      if argsSize != 0 {
        total := total + 1 + VarintSize32(argsSize);
      }
    }
  }

  class RpcResponseHeader {
    var status: int
    var message: Bytes
    var argsSize: int

    function Value(): Response
      reads this
    {
      Response(status, message, argsSize)
    }

    constructor ()
      ensures Value() == NO_RESPONSE
    {
      status, message, argsSize := 0, [], 0;
    }

    method Clear()
      modifies this
      ensures Value() == NO_RESPONSE
    {
      status, message, argsSize := 0, [], 0;
    }

    method MergeFromStream(bytes: Bytes) returns (ok: bool)
      modifies this
      ensures Parsed(Value(), ok) == ParseResponse(bytes, old(Value()))
    {
      var input := bytes;
      while input != []
        invariant ParseResponse(bytes, old(Value())) == ParseResponse(input, Value())
        decreases |input|
      {
        ReadShortens(input, TWO_32);
        var t := ReadTag(input);
        if t.Malformed? {
          return false;
        }
        var tag, rest := t.value, t.rest;
        if tag == 8 || tag == 24 {
          ReadShortens(rest, TWO_64);
          var v := ReadInt32(rest);
          if v.Malformed? {
            return false;
          }
          if tag == 8 {
            status := v.value;
          } else {
            argsSize := v.value;
          }
          input := v.rest;
        } else if tag == 18 {
          ReadStringShortens(rest);
          var s := ReadString(rest);
          if s.NoLength? {
            return false;
          }
          message := if s.Whole? then s.value else s.available;
          if s.Cut? || !ValidUtf8(message) {
            return false;
          }
          input := s.rest;
        } else if EndsMessage(tag) {
          return false;
        } else {
          var r := SkipField(tag, rest, RECURSION_LIMIT);
          if r.Malformed? {
            return false;
          }
          input := r.rest;
        }
      }
      ok := true;
    }

    method ParseFromArray(bytes: Bytes) returns (ok: bool)
      modifies this
      ensures Parsed(Value(), ok) == ParseResponse(bytes, NO_RESPONSE)
    {
      Clear();
      ok := MergeFromStream(bytes);
    }

    method SerializeToString() returns (output: Bytes)
      requires IsInt32(status) && IsInt32(argsSize)
      ensures output == EncodeResponse(Value())
    {
      hide WriteString, WriteInt32;
      output := [];
      if status != 0 {
        output := output + ([8] + WriteInt32(status));
      }
      assert output == Int32Field(8, status);
      ghost var before := output;
      if |message| > 0 {
        output := output + ([18] + WriteString(message));
      }
      assert output == before + StringField(18, message);
      before := output;
      if argsSize != 0 {
        output := output + ([24] + WriteInt32(argsSize));
      }
      assert output == before + Int32Field(24, argsSize);
    }

    method ByteSizeLong() returns (total: nat)
      requires ResponseFits(Value())
      ensures total == |EncodeResponse(Value())|
    {
      ResponseSizeIsLength(Value());
      total := 0;
      if |message| > 0 {
        total := total + 1 + VarintSize32(|message|) + |message|;
      }
      if status != 0 {
        total := total + 1 + Int32Size(status);
      }
      if argsSize != 0 {
        total := total + 1 + Int32Size(argsSize);
      }
    }
  }
}
