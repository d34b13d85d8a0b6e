/**
  One remote call: the client's request frame, the server stub's dispatch, the response frame and what
  the client makes of it. A frame is the size of the header, the header, and a body whose size only the
  header knows.
 */
module RpcFrame {
  import opened ProtobufWire
  import opened RpcHeaders

  type Callback = Bytes -> Bytes
  type Services = map<Bytes, map<Bytes, Callback>>

  const SUCCESS: int := 0
  const INVALID_REQUEST: int := 2
  const BUFFER_SIZE: nat := 4096

  function Ascii(s: string): (b: Bytes)
    ensures |b| == |s| && forall i :: 0 <= i < |b| ==> b[i] < 128 && (s[i] < 128 as char ==> b[i] == s[i] as int)
  {
    seq(|s|, i requires 0 <= i < |s| => s[i] as int % 128)
  }

  lemma {:induction false} AsciiIsUtf8(b: Bytes)
    requires forall i :: 0 <= i < |b| ==> b[i] < 128
    ensures ValidUtf8(b)
  {
    if b != [] {
      AsciiIsUtf8(b[1..]);
    }
  }

  function Min(a: nat, b: nat): nat {
    if a < b then a else b
  }

  /** `substr(pos, n)` for a `pos` inside the string; beyond it the standard library throws. */
  function Substr(s: Bytes, pos: nat, n: nat): Bytes
    requires pos <= |s|
  {
    s[pos..Min(pos + n, |s|)]
  }

  // ----- Frames -----

  function Frame(header: Bytes, body: Bytes): Bytes {
    LittleEndian32(|header| % TWO_32) + header + body
  }

  function RequestFrame(serviceName: Bytes, methodName: Bytes, args: Bytes): Bytes {
    Frame(EncodeRequest(Request(serviceName, methodName, |args| % TWO_32)), args)
  }

  datatype Reply = Reply(header: Response, body: Bytes)

  function ReplyFrame(r: Reply): Bytes
    requires IsInt32(r.header.status) && IsInt32(r.header.argsSize)
  {
    Frame(EncodeResponse(r.header), r.body)
  }

  lemma FrameParts(header: Bytes, body: Bytes, padding: Bytes)
    requires |header| < TWO_32
    ensures var f := Frame(header, body) + padding;
            && |f| == 4 + |header| + |body| + |padding|
            && FromLittleEndian32(f) == |header|
            && f[4..4 + |header|] == header
            && f[4 + |header|..4 + |header| + |body|] == body
  {
    var f := Frame(header, body) + padding;
    assert f == LittleEndian32(|header|) + (header + body + padding);
    LittleEndianRoundTrip(|header|, header + body + padding);
  }

  /** The first four bytes are the digits of `n` to the base 256, the lowest first. */
  ghost predicate HasSize(frame: Bytes, n: nat) {
    |frame| >= 4 && forall i: nat :: i < 4 ==> Pow256(i) > 0 && frame[i] == n / Pow256(i) % 256
  }

  lemma FrameHasSize(header: Bytes, body: Bytes)
    ensures HasSize(Frame(header, body), |header| % TWO_32)
    ensures |header| < 256 ==> Frame(header, body)[..4] == [|header|, 0, 0, 0]
  {
    var n, f := |header| % TWO_32, Frame(header, body);
    hide LittleEndian32, Pow256;
    forall i: nat | i < 4 ensures Pow256(i) > 0 && f[i] == n / Pow256(i) % 256 {
      LittleEndianBytes(n, i);
    }
    if |header| < 256 {
      SmallMod(|header|, TWO_32);
      SmallSizeWord(|header|, []);
    }
  }

  /** These are the bytes that the size is read from, by either side. */
  lemma SizeIsRead(frame: Bytes, n: nat)
    requires |frame| >= 4 && n < TWO_32
    ensures HasSize(frame, n) <==> FromLittleEndian32(frame) == n
  {
    hide Pow256;
    Pow256Values();
    var word := LittleEndian32(n);
    forall i: nat | i < 4 ensures Pow256(i) > 0 && word[i] == n / Pow256(i) % 256 {
      LittleEndianBytes(n, i);
    }
    if HasSize(frame, n) {
      assert frame == word + frame[4..];
      LittleEndianRoundTrip(n, frame[4..]);
    } else {
      WordIsRead(frame);
    }
  }

  lemma WordIsRead(frame: Bytes)
    requires |frame| >= 4
    ensures HasSize(frame, FromLittleEndian32(frame))
  {
    var n := FromLittleEndian32(frame);
    hide Pow256;
    Pow256Values();
    FromLittleEndianLaw(frame);
    var second := frame[1..4] + [0];
    FromLittleEndianLaw(second);
    var third := second[1..4] + [0];
    FromLittleEndianLaw(third);
    var fourth := third[1..4] + [0];
    FromLittleEndianLaw(fourth);
    hide FromLittleEndian32;
    assert second[0] == frame[1] && third[0] == frame[2] && fourth[0] == frame[3];
    DivisionTwice(n);
    forall i: nat | i < 4 ensures Pow256(i) > 0 && frame[i] == n / Pow256(i) % 256 {
      assert i == 0 || i == 1 || i == 2 || i == 3;
    }
  }

  lemma DivisionTwice(n: nat)
    ensures n / 256 / 256 == n / 65536 && n / 65536 / 256 == n / 16777216
  {
  }

  // ----- Server -----

  /** What the server answers to a header, with `args` for the method. */
  function Answer(services: Services, h: Request, args: Bytes): (r: Reply)
    ensures IsInt32(r.header.status) && IsInt32(r.header.argsSize)
    ensures r.header.message == Ascii("service not found") <==> h.serviceName !in services
    ensures r.header.message == Ascii("success") <==> Registered(services, h.serviceName, h.methodName)
    ensures r.header.status == SUCCESS <==> Registered(services, h.serviceName, h.methodName)
  {
    if h.serviceName !in services then
      Reply(Response(INVALID_REQUEST, Ascii("service not found"), 0), [])
    else if h.methodName !in services[h.serviceName] then
      Reply(Response(INVALID_REQUEST, Ascii("method not found"), 0), [])
    else
      var body := services[h.serviceName][h.methodName](args);
      Reply(Response(SUCCESS, Ascii("success"), ToInt32(|body|)), body)
  }

  predicate Registered(services: Services, serviceName: Bytes, methodName: Bytes) {
    serviceName in services && methodName in services[serviceName]
  }

  datatype Served = Written(buffer: Bytes) | OutOfRange

  class RpcServerStub {
    var services: Services

    /** A method without a name is refused. */
    ghost predicate Valid()
      reads this
    {
      forall s :: s in services ==> [] !in services[s]
    }

    constructor ()
      ensures Valid() && services == map[]
    {
      services := map[];
    }

    method RegisterService(serviceName: Bytes, methodName: Bytes, callback: Callback)
      requires Valid()
      modifies this
      ensures Valid() && services.Keys == old(services.Keys) + {serviceName}
      ensures methodName != [] ==> Registered(services, serviceName, methodName)
                                   && services[serviceName][methodName] == callback
      ensures forall s, m :: m != [] && (s, m) != (serviceName, methodName) ==>
                && (Registered(services, s, m) <==> Registered(old(services), s, m))
                && (Registered(services, s, m) ==> services[s][m] == old(services)[s][m])
    {
      if serviceName !in services {
        services := services[serviceName := map[]];
      }
      if methodName != [] {
        var methods: map<Bytes, Callback> := services[serviceName];
        methods := methods[methodName := callback];
        services := services[serviceName := methods];
      }
    }

    /** One request. The size of the header is taken as it stands in the buffer, the parser's verdict is
        ignored, and a header that claims more than there is makes the standard library throw. */
    method ProcessRequest(readBuffer: Bytes) returns (reply: Served)
      requires Valid()
      ensures |readBuffer| < 4 ==> reply == OutOfRange
      ensures |readBuffer| >= 4 ==>
                var headSize := FromLittleEndian32(readBuffer);
                var h := ParseRequest(Substr(readBuffer, 4, headSize), NO_REQUEST).header;
                if Registered(services, h.serviceName, h.methodName) && 4 + headSize > |readBuffer|
                then reply == OutOfRange
                else
                  var at := Min(4 + headSize, |readBuffer|);
                  reply == Written(ReplyFrame(Answer(services, h, Substr(readBuffer, at, h.argsSize))))
    {
      if |readBuffer| < 4 {
        return OutOfRange;
      }
      var headSize := FromLittleEndian32(readBuffer);
      var header := new RpcHeader();
      var _ := header.ParseFromString(Substr(readBuffer, 4, headSize));
      var serviceName, methodName, argsSize := header.serviceName, header.methodName, header.argsSize;
      var responseHeader := new RpcResponseHeader();
      var response: Bytes := [];
      if serviceName !in services {
        responseHeader.status := INVALID_REQUEST;
        responseHeader.message := Ascii("service not found");
        responseHeader.argsSize := 0;
      } else if methodName in services[serviceName] {
        if 4 + headSize > |readBuffer| {
          return OutOfRange;
        }
        response := services[serviceName][methodName](Substr(readBuffer, 4 + headSize, argsSize));
        responseHeader.status := SUCCESS;
        responseHeader.message := Ascii("success");
        responseHeader.argsSize := ToInt32(|response|);
      } else {
        responseHeader.status := INVALID_REQUEST;
        responseHeader.message := Ascii("method not found");
        responseHeader.argsSize := 0;
      }
      var headerString := responseHeader.SerializeToString();
      var writeBuffer := LittleEndian32(|headerString| % TWO_32);
      writeBuffer := writeBuffer + headerString;
      writeBuffer := writeBuffer + response;
      reply := Written(writeBuffer);
    }
  }

  // ----- Client -----

  /** What `recv` leaves in the zeroed buffer of the client. */
  function Received(frame: Bytes): (buffer: Bytes)
    ensures |buffer| == BUFFER_SIZE
  {
    if |frame| >= BUFFER_SIZE then frame[..BUFFER_SIZE] else frame + seq(BUFFER_SIZE - |frame|, i => 0)
  }

  /** Outside: the sizes in the frame lead out of the buffer. */
  datatype Outcome = Answered(header: Response, body: Bytes) | Outside

  method EncodeCall(serviceName: Bytes, methodName: Bytes, args: Bytes) returns (request: Bytes)
    ensures request == RequestFrame(serviceName, methodName, args)
    ensures var n := |EncodeRequest(Request(serviceName, methodName, |args| % TWO_32))|;
            HasSize(request, n % TWO_32) && (n < 256 ==> request[..4] == [n, 0, 0, 0])
  {
    FrameHasSize(EncodeRequest(Request(serviceName, methodName, |args| % TWO_32)), args);
    var header := new RpcHeader();
    header.serviceName := serviceName;
    header.methodName := methodName;
    header.argsSize := |args| % TWO_32;
    request := header.SerializeToString();
    var size := |request| % TWO_32;
    request := LittleEndian32(size) + request;
    request := request + args;
  }

  method DecodeReply(buffer: Bytes) returns (reply: Outcome)
    requires |buffer| == BUFFER_SIZE
    ensures var n := FromLittleEndian32(buffer);
            if 4 + n > BUFFER_SIZE then reply == Outside
            else
              var h := ParseResponse(buffer[4..4 + n], NO_RESPONSE).header;
              if 0 <= h.argsSize <= BUFFER_SIZE - 4 - n
              then reply == Answered(h, buffer[4 + n..4 + n + h.argsSize]) else reply == Outside
  {
    var headerLen := FromLittleEndian32(buffer);
    if 4 + headerLen > BUFFER_SIZE {
      return Outside;
    }
    var header := new RpcResponseHeader();
    var _ := header.ParseFromArray(buffer[4..4 + headerLen]);
    var at := 4 + headerLen;
    if header.argsSize < 0 || at + header.argsSize > BUFFER_SIZE {
      return Outside;
    }
    reply := Answered(header.Value(), buffer[at..at + header.argsSize]);
  }

  // ----- The whole call -----

  ghost predicate Sendable(serviceName: Bytes, methodName: Bytes, args: Bytes) {
    |serviceName| + |methodName| < TWO_31 - 32 && |args| < TWO_32
  }

  /** What a call is answered with. The parser stops at a name that is not UTF-8: a service so named is
      found without any method, a method so named is called without its arguments. */
  function Expected(services: Services, serviceName: Bytes, methodName: Bytes, args: Bytes): (r: Reply)
    ensures IsInt32(r.header.status) && IsInt32(r.header.argsSize) && r.header.argsSize <= |r.body|
  {
    if serviceName !in services then
      Reply(Response(INVALID_REQUEST, Ascii("service not found"), 0), [])
    else if !ValidUtf8(serviceName) || methodName !in services[serviceName] then
      Reply(Response(INVALID_REQUEST, Ascii("method not found"), 0), [])
    else
      var body := services[serviceName][methodName](if ValidUtf8(methodName) then args else []);
      Reply(Response(SUCCESS, Ascii("success"), ToInt32(|body|)), body)
  }

  lemma EncodedRequestSize(serviceName: Bytes, methodName: Bytes, n: nat)
    requires |serviceName| + |methodName| < TWO_31 - 32 && n < TWO_32
    ensures |EncodeRequest(Request(serviceName, methodName, n))| < TWO_31
  {
    RequestSizeIsLength(Request(serviceName, methodName, n));
  }

  /** The server gets the header the client meant, as far as the names are UTF-8, and the arguments. */
  lemma ServerSees(services: Services, serviceName: Bytes, methodName: Bytes, args: Bytes)
    requires Sendable(serviceName, methodName, args) && forall s :: s in services ==> [] !in services[s]
    ensures var f := RequestFrame(serviceName, methodName, args);
            var n := FromLittleEndian32(f);
            && 4 + n <= |f|
            && var h := ParseRequest(Substr(f, 4, n), NO_REQUEST).header;
               Answer(services, h, Substr(f, 4 + n, h.argsSize)) == Expected(services, serviceName, methodName, args)
  {
    hide EncodeRequest, ParseRequest, ValidUtf8, LittleEndian32, FromLittleEndian32;
    var r := Request(serviceName, methodName, |args|);
    var header := EncodeRequest(r);
    EncodedRequestSize(serviceName, methodName, |args|);
    FrameParts(header, args, []);
    var f := RequestFrame(serviceName, methodName, args);
    assert f + [] == f;
    ParseEncodedRequest(r, [], NO_REQUEST);
    assert header + [] == header;
    ParseNothing();
    assert Substr(f, 4, |header|) == header;
    assert Substr(f, 4 + |header|, |args|) == args;
    assert Substr(f, 4 + |header|, 0) == [];
  }

  lemma ParseNothing()
    ensures forall h :: ParseRequest([], h) == Parsed(h, true)
    ensures forall h :: ParseResponse([], h) == Parsed(h, true)
  {
  }

  /** The client gets back the header that the server framed, and of the body what the buffer has room
      for, whatever the buffer holds behind it. */
  lemma ClientSees(r: Reply)
    requires ResponseFits(r.header) && ValidUtf8(r.header.message) && 4 + |EncodeResponse(r.header)| <= BUFFER_SIZE
    ensures var buffer, n := Received(ReplyFrame(r)), |EncodeResponse(r.header)|;
            && FromLittleEndian32(buffer) == n
            && ParseResponse(buffer[4..4 + n], NO_RESPONSE).header == r.header
            && forall k: nat :: k <= |r.body| && 4 + n + k <= BUFFER_SIZE ==> buffer[4 + n..4 + n + k] == r.body[..k]
  {
    hide EncodeResponse, ParseResponse, ValidUtf8, LittleEndian32, FromLittleEndian32;
    var header := EncodeResponse(r.header);
    var room := Min(|r.body|, BUFFER_SIZE - 4 - |header|);
    var padding: Bytes := seq(BUFFER_SIZE - 4 - |header| - room, i => 0);
    assert |ReplyFrame(r)| == 4 + |header| + |r.body|;
    var buffer := Frame(header, r.body[..room]) + padding;
    assert Received(ReplyFrame(r)) == buffer;
    FrameParts(header, r.body[..room], padding);
    ResponseRoundTrip(r.header);
    forall k: nat | k <= |r.body| && 4 + |header| + k <= BUFFER_SIZE
      ensures buffer[4 + |header|..4 + |header| + k] == r.body[..k]
    {
      assert buffer[4 + |header|..4 + |header| + k] == buffer[4 + |header|..4 + |header| + room][..k];
    }
  }

  lemma ExpectedIsDecodable(services: Services, serviceName: Bytes, methodName: Bytes, args: Bytes)
    ensures var r := Expected(services, serviceName, methodName, args);
            ResponseFits(r.header) && ValidUtf8(r.header.message) && 4 + |EncodeResponse(r.header)| <= BUFFER_SIZE
  {
    hide ValidUtf8, EncodeResponse, Ascii;
    var r := Expected(services, serviceName, methodName, args);
    AsciiIsUtf8(r.header.message);
    ResponseSizeIsLength(r.header);
  }

  lemma ExpectedIsDispatched(services: Services, serviceName: Bytes, methodName: Bytes, args: Bytes)
    requires ValidUtf8(serviceName) && ValidUtf8(methodName)
    ensures var r := Expected(services, serviceName, methodName, args);
            if Registered(services, serviceName, methodName)
            then
              var body := services[serviceName][methodName](args);
              r == Reply(Response(SUCCESS, Ascii("success"), ToInt32(|body|)), body)
              && (|body| < TWO_31 ==> ToInt32(|body|) == |body|)
            else
              && r.header.status == INVALID_REQUEST && r.header.argsSize == 0 && r.body == []
              && r.header.message ==
                 Ascii(if serviceName in services then "method not found" else "service not found")
  {
  }

  /** A call from end to end, for any names and arguments: the client gets the expected answer if the body
      fits its buffer, and leaves the buffer if not. For names in UTF-8 the answer is success with the
      callback's result for a registered method, otherwise an error without a body. */
  method Call(stub: RpcServerStub, serviceName: Bytes, methodName: Bytes, args: Bytes)
    returns (reply: Outcome)
    requires stub.Valid() && Sendable(serviceName, methodName, args)
    ensures var r := Expected(stub.services, serviceName, methodName, args);
            var size := r.header.argsSize;
            reply == if 0 <= size <= BUFFER_SIZE - 4 - |EncodeResponse(r.header)|
                     then Answered(r.header, r.body[..size]) else Outside
    ensures ValidUtf8(serviceName) && ValidUtf8(methodName) && reply.Answered? ==>
              if Registered(stub.services, serviceName, methodName)
              then
                && reply.header == Response(SUCCESS, Ascii("success"), |reply.body|)
                && var body := stub.services[serviceName][methodName](args);
                   reply.body <= body && (|body| < TWO_31 ==> reply.body == body)
              else
                && reply.header.status == INVALID_REQUEST && reply.body == []
                && reply.header.message ==
                   Ascii(if serviceName in stub.services then "method not found" else "service not found")
  {
    hide EncodeRequest, EncodeResponse, ParseRequest, ParseResponse, ValidUtf8, LittleEndian32, FromLittleEndian32,
         Substr, Received, Answer, Expected, ReplyFrame, RequestFrame;
    var request := EncodeCall(serviceName, methodName, args);
    ServerSees(stub.services, serviceName, methodName, args);
    var served := stub.ProcessRequest(request);
    ExpectedIsDecodable(stub.services, serviceName, methodName, args);
    ClientSees(Expected(stub.services, serviceName, methodName, args));
    reply := DecodeReply(Received(served.buffer));
    if ValidUtf8(serviceName) && ValidUtf8(methodName) {
      ExpectedIsDispatched(stub.services, serviceName, methodName, args);
    }
  }
}
