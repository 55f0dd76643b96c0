/** transport/h1: the exchange by which client and server agree on the key of their framers. */
module Handshake {
  import opened Bytes
  import opened Stream
  import opened Search
  import opened Encryption
  import opened Framing
  import Response

  // ---------------------------------------------------------------- libraries

  /** encoding/base64's StdEncoding. */
  datatype Base64 = Base64(encode: Bytes -> Bytes, decode: Bytes -> Option<Bytes>)

  predicate Base64Char(b: byte) {
    48 <= b <= 57 || 65 <= b <= 90 || 97 <= b <= 122 || b == 43 || b == 47 || b == 61
  }

  /** What is assumed of it: decoding undoes encoding, four characters of the alphabet for every three bytes. */
  ghost predicate Lawful(b64: Base64) {
    forall x {:trigger b64.encode(x)} ::
      && b64.decode(b64.encode(x)) == Some(x)
      && |b64.encode(x)| == 4 * ((|x| + 2) / 3)
      && forall i :: 0 <= i < |b64.encode(x)| ==> Base64Char(b64.encode(x)[i])
  }

  type Int64 = i: int | -0x8000_0000_0000_0000 <= i < 0x8000_0000_0000_0000

  /** int64 and uint64 of the same 64 bits. */
  function Signed(u: nat): Int64
    requires u < 2 * I64
  {
    if u < I64 then u else u - 2 * I64
  }

  function Unsigned(i: Int64): nat {
    if i >= 0 then i else i + 2 * I64
  }

  /** What 64-bit arithmetic makes of a difference of two 64-bit numbers. */
  function Wrapped(i: int): Int64
    requires -2 * I64 < i < 2 * I64
  {
    if i >= I64 then i - 2 * I64 else if i + I64 < 0 then i + 2 * I64 else i
  }

  /** It is the number of that many bits on the same place of the circle of 2^64. */
  lemma WrappedExactly(i: int)
    requires -2 * I64 < i < 2 * I64
    ensures Wrapped(i) - i == 0 || Wrapped(i) - i == 2 * I64 || i - Wrapped(i) == 2 * I64
    ensures 0 <= i + I64 && i < I64 ==> Wrapped(i) == i
  {
  }

  // ---------------------------------------------------------------- the client's first message

  const TIME_WINDOW: int := 120
  const AUTH_LIMIT: nat := 128

  /** The secret part of the request: 8 bytes of time and 16 random bytes. */
  function AuthBytes(ts: Int64, half: Block): (r: Bytes)
    ensures |r| == 8 + BLOCK
  {
    PutBE(8, Unsigned(ts)) + half
  }

  /** The Authentication header: empty if the configured key is no AES key. */
  function AuthField(b64: Base64, aes: BlockCipher, psk: Bytes, ts: Int64, half: Block, iv: Block): Bytes
  {
    if ValidKey(psk) then b64.encode(Sealed(aes, psk, iv, AuthBytes(ts, half))) else []
  }

  /** The auth field always fits the server's limit. */
  lemma AuthFieldFits(b64: Base64, aes: BlockCipher, psk: Bytes, ts: Int64, half: Block, iv: Block)
    requires Lawful(b64)
    ensures |AuthField(b64, aes, psk, ts, half, iv)| <= AUTH_LIMIT
    ensures ValidKey(psk) ==> |AuthField(b64, aes, psk, ts, half, iv)| == 56
  {
    assert |Sealed(aes, psk, iv, AuthBytes(ts, half))| == 40;
  }

  method ClientAuth(b64: Base64, aes: BlockCipher, psk: Bytes, ts: Int64, half: Block, iv: Block)
    returns (authBytes: Bytes, authStr: Bytes)
    ensures authBytes == AuthBytes(ts, half) && authStr == AuthField(b64, aes, psk, ts, half, iv)
  {
    authBytes := PutBE(8, Unsigned(ts)) + half;
    authStr := [];
    var dat := Encrypt(aes, psk, iv, authBytes);
    if dat.Ok? {
      authStr := b64.encode(dat.value);
    }
  }

  // ---------------------------------------------------------------- the server's check and answer

  /** What the server has when it accepts: the token it sends, and its framer. */
  datatype Accepted = Accepted(token: Bytes, framer: Framer)

  const Denied: Error := Malformed("denied")

  function FramerFor(aes: BlockCipher, psk: Bytes, ts: Int64, websocket: bool, client: bool): Framer
    requires psk != []
  {
    var key := FrameKey(psk, Unsigned(ts));
    if websocket then WsFramer(aes, key, client) else F1Framer(aes, key)
  }

  /** The 64-bit number at the head of the decrypted field. */
  lemma TimeOf(authb: Bytes)
    requires |authb| >= 8
    ensures GetBE(authb[..8]) < 2 * I64
  {
    PutGetBE(authb[..8]);
    Pow256Eight();
  }

  lemma TimeRoundTrip(ts: Int64, half: Block)
    ensures var a := AuthBytes(ts, half); GetBE(a[..8]) < 2 * I64 && Signed(GetBE(a[..8])) == ts && a[8..] == half
  {
    Cut(PutBE(8, Unsigned(ts)), half);
    Pow256Eight();
    GetPutBE(8, Unsigned(ts));
  }

  /** handleServerConn, from the request's client id and headers to the framer. */
  method HandleServerConn(
      b64: Base64, aes: BlockCipher, psk: Bytes, clientId: Bytes, authStr: Bytes, websocket: bool, now: Int64,
      keyNewRaw: Block, iv: Block)
    returns (r: Result<Accepted>)
    ensures r == ServerAnswer(b64, aes, psk, clientId, authStr, websocket, now, keyNewRaw, iv)
  {
    if |clientId| <= 0 {
      return Err(Denied);
    }
    if |authStr| > AUTH_LIMIT || |authStr| <= 0 {
      return Err(Denied);
    }
    var authBytesEnc := b64.decode(authStr);
    if authBytesEnc == None {
      return Err(Denied);
    }
    var authb := Decrypt(aes, psk, authBytesEnc.value);
    if authb.Err? {
      return Err(if authb.error.Panic? then authb.error else Denied);
    }
    if |authb.value| < 8 + BLOCK {
      return Err(Denied);
    }
    TimeOf(authb.value);
    var ts := Signed(GetBE(authb.value[..8]));
    if Wrapped(ts - now) > TIME_WINDOW || Wrapped(ts - now) < -TIME_WINDOW {
      return Err(Denied);
    }
    var keyNewEnc := Encrypt(aes, psk, iv, keyNewRaw);
    if keyNewEnc.Err? {
      return Err(Denied);
    }
    var keyNew := Xor(keyNewRaw, authb.value[8..]);
    var key := SetUpKey(keyNew, Unsigned(ts));
    r := Ok(Accepted(b64.encode(keyNewEnc.value),
                     if websocket then WsFramer(aes, key.value, false) else F1Framer(aes, key.value)));
  }

  function ServerAnswer(
      b64: Base64, aes: BlockCipher, psk: Bytes, clientId: Bytes, authStr: Bytes, websocket: bool, now: Int64,
      keyNewRaw: Block, iv: Block): Result<Accepted>
  {
    if clientId == [] || authStr == [] || |authStr| > AUTH_LIMIT then Err(Denied)
    else match b64.decode(authStr)
      case None => Err(Denied)
      case Some(coded) =>
        match Opened(aes, psk, coded)
        case Err(e) => Err(if e.Panic? then e else Denied)
        case Ok(authb) =>
          if |authb| < 8 + BLOCK then Err(Denied)
          else
            TimeOf(authb);
            var ts := Signed(GetBE(authb[..8]));
            if Wrapped(ts - now) > TIME_WINDOW || Wrapped(ts - now) < -TIME_WINDOW then Err(Denied)
            else Ok(Accepted(b64.encode(Sealed(aes, psk, iv, keyNewRaw)),
                             FramerFor(aes, Mixed(keyNewRaw, authb[8..]), ts, websocket, false)))
  }

  // ---------------------------------------------------------------- the client's end

  /** The key part of Connect, from the X-Token header to the framer. */
  method ClientFinish(
      b64: Base64, aes: BlockCipher, psk: Bytes, authBytes: Bytes, ts: Int64, token: Bytes, websocket: bool)
    returns (r: Result<Framer>)
    requires |authBytes| == 8 + BLOCK
    ensures r == ClientFramer(b64, aes, psk, authBytes, ts, token, websocket)
  {
    if |token| <= 0 {
      return Err(Malformed("Empty key received."));
    }
    var keyNewEnc: Bytes := [];
    var dat := b64.decode(token);
    if dat.Some? {
      keyNewEnc := dat.value;
    }
    if |keyNewEnc| <= 0 {
      return Err(Malformed("Empty key."));
    }
    var keyNewRaw := Decrypt(aes, psk, keyNewEnc);
    if keyNewRaw.Err? {
      return Err(keyNewRaw.error);
    }
    var keyNew := Xor(keyNewRaw.value, authBytes[8..]);
    var key := SetUpKey(keyNew, Unsigned(ts));
    r := Ok(if websocket then WsFramer(aes, key.value, true) else F1Framer(aes, key.value));
  }

  function ClientFramer(
      b64: Base64, aes: BlockCipher, psk: Bytes, authBytes: Bytes, ts: Int64, token: Bytes, websocket: bool)
    : Result<Framer>
    requires |authBytes| == 8 + BLOCK
  {
    if token == [] then Err(Malformed("Empty key received."))
    else match b64.decode(token)
      case None => Err(Malformed("Empty key."))
      case Some(coded) =>
        if coded == [] then Err(Malformed("Empty key."))
        else match Opened(aes, psk, coded)
          case Err(e) => Err(e)
          case Ok(raw) => Ok(FramerFor(aes, Mixed(raw, authBytes[8..]), ts, websocket, true))
  }

  // ---------------------------------------------------------------- who is accepted

  /** The server takes exactly fields of at most 128 characters whose decrypted time is close enough. */
  lemma AcceptedExactly(
      b64: Base64, aes: BlockCipher, psk: Bytes, clientId: Bytes, authStr: Bytes, websocket: bool, now: Int64,
      keyNewRaw: Block, iv: Block)
    ensures ServerAnswer(b64, aes, psk, clientId, authStr, websocket, now, keyNewRaw, iv).Ok? <==>
              && clientId != [] && 1 <= |authStr| <= 128 && b64.decode(authStr).Some? && ValidKey(psk)
              && var dat := b64.decode(authStr).value;
              && |dat| >= BLOCK + 24
              && var t := GetBE(CfbDecrypt(aes, psk, dat[..BLOCK], dat[BLOCK..])[..8]);
              && t < 2 * I64 && -120 <= Wrapped(Signed(t) - now) <= 120
  {
    match b64.decode(authStr)
    case None =>
    case Some(dat) =>
      if ValidKey(psk) && |dat| >= BLOCK + 24 {
        TimeOf(CfbDecrypt(aes, psk, dat[..BLOCK], dat[BLOCK..]));
      }
  }

  /** The client completes exactly when the token is base64 of something with an IV in it. */
  lemma CompletesExactly(
      b64: Base64, aes: BlockCipher, psk: Bytes, authBytes: Bytes, ts: Int64, token: Bytes, websocket: bool)
    requires |authBytes| == 8 + BLOCK
    ensures ClientFramer(b64, aes, psk, authBytes, ts, token, websocket).Ok? <==>
              token != [] && b64.decode(token).Some? && |b64.decode(token).value| >= BLOCK && ValidKey(psk)
  {
  }

  // ---------------------------------------------------------------- agreement

  /** The two ends' framers under one key: in WebSocket form the client masks and the server does not. */
  ghost predicate InTheirRoles(client: Framer, server: Framer, websocket: bool, aes: BlockCipher, key: Bytes) {
    if websocket then client == WsFramer(aes, key, true) && server == WsFramer(aes, key, false)
    else client == F1Framer(aes, key) && server == F1Framer(aes, key)
  }

  /** The key both ends compute: both random halves and the time over one another. */
  function AgreedKey(keyNewRaw: Block, half: Block, ts: Int64): Bytes {
    XorOver(XorOver(keyNewRaw, half), PutBE(8, Unsigned(ts)))
  }

  /**
   * The server accepts an honest client's field exactly when their clocks are at most 120 seconds apart,
   * on the 64-bit circle; without wrap-around unless the server's clock is at an end of the 64-bit range.
   */
  lemma HonestClientAccepted(
      b64: Base64, aes: BlockCipher, psk: Bytes, clientId: Bytes, ts: Int64, half: Block, iv: Block,
      websocket: bool, now: Int64, keyNewRaw: Block, iv': Block)
    requires Lawful(b64) && clientId != []
    ensures var r := ServerAnswer(b64, aes, psk, clientId, AuthField(b64, aes, psk, ts, half, iv), websocket, now,
                                  keyNewRaw, iv');
            && (r.Ok? <==> ValidKey(psk) && -TIME_WINDOW <= Wrapped(ts - now) <= TIME_WINDOW)
            && (TIME_WINDOW - I64 <= now < I64 - TIME_WINDOW ==>
                  (r.Ok? <==> ValidKey(psk) && -TIME_WINDOW <= ts - now <= TIME_WINDOW))
            && (r.Ok? ==> r.value == Accepted(b64.encode(Sealed(aes, psk, iv', keyNewRaw)),
                                              FramerFor(aes, Mixed(keyNewRaw, half), ts, websocket, false)))
  {
    AuthFieldFits(b64, aes, psk, ts, half, iv);
    if ValidKey(psk) {
      OpenedSealed(aes, psk, iv, AuthBytes(ts, half));
      TimeRoundTrip(ts, half);
    }
  }

  /**
   * Key agreement: whenever the server accepts an honest client and its token is delivered unchanged, the
   * client completes, and the two framers are counterparts under one valid key made of both random halves
   * and the time; over WebSocket the client is the end that masks.
   */
  lemma KeyAgreement(
      b64: Base64, aes: BlockCipher, psk: Bytes, clientId: Bytes, ts: Int64, half: Block, iv: Block,
      websocket: bool, now: Int64, keyNewRaw: Block, iv': Block, server: Accepted)
    requires Lawful(b64) && clientId != []
    requires ServerAnswer(b64, aes, psk, clientId, AuthField(b64, aes, psk, ts, half, iv), websocket, now, keyNewRaw,
                          iv') == Ok(server)
    ensures |server.token| == 44 && forall i :: 0 <= i < 44 ==> Base64Char(server.token[i])
    ensures var client := ClientFramer(b64, aes, psk, AuthBytes(ts, half), ts, server.token, websocket);
            && client.Ok? && server.framer == Peer(client.value)
            && ValidKey(client.value.key)
            && InTheirRoles(client.value, server.framer, websocket, aes, AgreedKey(keyNewRaw, half, ts))
  {
    HonestClientAccepted(b64, aes, psk, clientId, ts, half, iv, websocket, now, keyNewRaw, iv');
    var sealed := Sealed(aes, psk, iv', keyNewRaw);
    TokenLooks(b64, sealed);
    ClientUnderstands(b64, aes, psk, ts, half, websocket, keyNewRaw, iv');
    Counterparts(aes, keyNewRaw, half, ts, websocket);
  }

  lemma TokenLooks(b64: Base64, sealed: Bytes)
    requires Lawful(b64) && |sealed| == 2 * BLOCK
    ensures |b64.encode(sealed)| == 44 && forall i :: 0 <= i < 44 ==> Base64Char(b64.encode(sealed)[i])
  {
  }

  /** Server and client framer of one key. */
  lemma Counterparts(aes: BlockCipher, keyNewRaw: Block, half: Block, ts: Int64, websocket: bool)
    ensures var psk := Mixed(keyNewRaw, half);
            && psk != []
            && FramerFor(aes, psk, ts, websocket, false) == Peer(FramerFor(aes, psk, ts, websocket, true))
            && ValidKey(FramerFor(aes, psk, ts, websocket, true).key)
            && InTheirRoles(FramerFor(aes, psk, ts, websocket, true), FramerFor(aes, psk, ts, websocket, false),
                            websocket, aes, AgreedKey(keyNewRaw, half, ts))
  {
    KeyEquation(keyNewRaw, half, Unsigned(ts));
  }

  /** What the client makes of the server's token. */
  lemma ClientUnderstands(
      b64: Base64, aes: BlockCipher, psk: Bytes, ts: Int64, half: Block, websocket: bool, keyNewRaw: Block, iv: Block)
    requires Lawful(b64) && ValidKey(psk)
    ensures ClientFramer(b64, aes, psk, AuthBytes(ts, half), ts, b64.encode(Sealed(aes, psk, iv, keyNewRaw)), websocket)
         == Ok(FramerFor(aes, Mixed(keyNewRaw, half), ts, websocket, true))
  {
    OpenedSealed(aes, psk, iv, keyNewRaw);
    TimeRoundTrip(ts, half);
    assert |b64.encode(Sealed(aes, psk, iv, keyNewRaw))| == 44;
  }

  /** The key: both halves and the time over one another. */
  lemma KeyEquation(keyNewRaw: Block, half: Block, ts: nat)
    ensures Mixed(keyNewRaw, half) != []
    ensures FrameKey(Mixed(keyNewRaw, half), ts) == XorOver(XorOver(keyNewRaw, half), PutBE(8, ts))
  {
    StretchedWhole(Mixed(keyNewRaw, half));
  }

  /** A 16-byte key is neither cut nor stretched. */
  lemma StretchedWhole(psk: Bytes)
    requires |psk| == BLOCK
    ensures Stretched(psk) == psk
  {
  }

  // ---------------------------------------------------------------- the response on the wire

  /** A line of a response head as fmt.Fprintf writes it: no carriage return inside, and not empty. */
  predicate Plain(line: Bytes) {
    line != [] && 13 !in line
  }

  function Text(lines: seq<Bytes>): Bytes {
    if lines == [] then Response.CRLF else lines[0] + (Response.CRLF + Text(lines[1..]))
  }

  /** The reader's work on a list of lines. */
  function AddLines(add: Response.Adder, at: Response.Progress, lines: seq<Bytes>): Result<Response.Head>
    decreases |lines|
  {
    if lines == [] then Ok(at.head)
    else match add(at.head, at.first, lines[0])
      case Err(e) => Err(e)
      case Ok(head) => AddLines(add, Response.Progress(head, false), lines[1..])
  }

  lemma MatchStarts(s: Bytes, q: nat)
    requires MatchAt(s, Response.CRLF, q)
    ensures s[q] == 13
  {
    assert s[q..q + 2][0] == s[q];
  }

  lemma FirstLineFound(line: Bytes, rest: Bytes)
    requires 13 !in line
    ensures Index(line + (Response.CRLF + rest), Response.CRLF) == Some(|line|)
  {
    var s := line + (Response.CRLF + rest);
    assert s[|line|..|line| + 2] == Response.CRLF;
    forall q: nat | q < |line| ensures !MatchAt(s, Response.CRLF, q) {
      if MatchAt(s, Response.CRLF, q) {
        MatchStarts(s, q);
      }
    }
    IndexIs(s, Response.CRLF, |line|);
  }

  lemma TextSplits(lines: seq<Bytes>, more: Bytes)
    requires lines != []
    ensures Text(lines) + more == lines[0] + (Response.CRLF + (Text(lines[1..]) + more))
  {
    Assoc(Response.CRLF, Text(lines[1..]), more);
    Assoc(lines[0], Response.CRLF + Text(lines[1..]), more);
  }

  lemma OneTextLine(line: Bytes, rest: Bytes)
    requires Plain(line)
    ensures var s := line + (Response.CRLF + rest);
            Index(s, Response.CRLF) == Some(|line|) && s[..|line|] == line && s[|line| + 2..] == rest
  {
    FirstLineFound(line, rest);
    Assoc(line, Response.CRLF, rest);
    Cut(line + Response.CRLF, rest);
    Cut(line, Response.CRLF + rest);
  }

  lemma EmptyLine(more: Bytes)
    ensures Index(Response.CRLF + more, Response.CRLF) == Some(0)
  {
    FirstLineFound([], more);
    assert [] + (Response.CRLF + more) == Response.CRLF + more;
  }

  /** What was written line by line is read line by line, whatever follows the head. */
  lemma {:induction false} HeadRoundTrip(
      add: Response.Adder, at: Response.Progress, lines: seq<Bytes>, more: Bytes)
    requires forall i :: 0 <= i < |lines| ==> Plain(lines[i])
    ensures Response.Parse(add, at, Text(lines) + more) == AddLines(add, at, lines)
    decreases |lines|
  {
    if lines == [] {
      EmptyLine(more);
      Response.ParseLine(add, at, Text(lines) + more, 0);
    } else {
      var rest := Text(lines[1..]) + more;
      TextSplits(lines, more);
      OneTextLine(lines[0], rest);
      Response.ParseLine(add, at, Text(lines) + more, |lines[0]|);
      match add(at.head, at.first, lines[0])
      case Err(_) =>
      case Ok(head) => HeadRoundTrip(add, Response.Progress(head, false), lines[1..], more);
    }
  }

  /** What follows a head written line by line is what was written behind it. */
  lemma {:induction false} AfterText(lines: seq<Bytes>, more: Bytes)
    requires forall i :: 0 <= i < |lines| ==> Plain(lines[i])
    ensures Response.AfterHead(Text(lines) + more) == more
    decreases |lines|
  {
    if lines == [] {
      EmptyLine(more);
      assert (Response.CRLF + more)[2..] == more;
    } else {
      var rest := Text(lines[1..]) + more;
      TextSplits(lines, more);
      OneTextLine(lines[0], rest);
      AfterLine(Text(lines) + more, |lines[0]|);
      AfterText(lines[1..], more);
    }
  }

  lemma AfterLine(s: Bytes, p: nat)
    requires Index(s, Response.CRLF) == Some(p) && p > 0
    ensures p + 2 <= |s| && Response.AfterHead(s) == Response.AfterHead(s[p + 2..])
  {
    IndexIsFirst(s, Response.CRLF);
  }

  /** A head of lines of at most 15359 bytes is read whole however it is cut into pieces. */
  lemma {:induction false} TextFits(lines: seq<Bytes>, more: Bytes)
    requires forall i :: 0 <= i < |lines| ==> Plain(lines[i]) && |lines[i]| <= 15359
    ensures Response.ShortLines(Text(lines) + more)
    decreases |lines|
  {
    if lines == [] {
      EmptyLine(more);
    } else {
      TextSplits(lines, more);
      OneTextLine(lines[0], Text(lines[1..]) + more);
      TextFits(lines[1..], more);
      FitsBehind(Text(lines) + more, |lines[0]|);
    }
  }

  lemma FitsBehind(s: Bytes, p: nat)
    requires Index(s, Response.CRLF) == Some(p) && p <= 15359 && p + 2 <= |s| && Response.ShortLines(s[p + 2..])
    ensures Response.ShortLines(s)
  {
  }

  lemma {:induction false} LastLine(add: Response.Adder, at: Response.Progress, lines: seq<Bytes>, last: Bytes)
    requires AddLines(add, at, lines).Ok?
    ensures AddLines(add, at, lines + [last])
         == add(AddLines(add, at, lines).value, at.first && lines == [], last)
    decreases |lines|
  {
    if lines == [] {
      assert [] + [last] == [last];
      assert [last][1..] == [];
    } else {
      assert (lines + [last])[1..] == lines[1..] + [last];
      var head := add(at.head, at.first, lines[0]).value;
      LastLine(add, Response.Progress(head, false), lines[1..], last);
    }
  }

  /** "X-Token" */
  const X_TOKEN: Bytes := [88, 45, 84, 111, 107, 101, 110]

  function TokenLine(token: Bytes): Bytes {
    X_TOKEN + ([Response.COLON, Response.SPACE] + token)
  }

  lemma {:induction false} NothingToTrim(s: Bytes)
    requires s == [] || (!Response.White(s[0]) && !Response.White(s[|s| - 1]))
    ensures Response.TrimSpace(s) == s
  {
  }

  /** The last line of the server's head puts the token under X-Token. */
  lemma TokenLineRead(canon: Bytes -> Bytes, head: Response.Head, token: Bytes)
    requires token != [] && forall i :: 0 <= i < |token| ==> Base64Char(token[i])
    ensures Response.AddLine(canon, head, false, TokenLine(token))
         == Ok(head.(header := head.header[canon(X_TOKEN) := token]))
    ensures Plain(TokenLine(token))
  {
    var line := TokenLine(token);
    var p := Response.IndexOf(line, Response.COLON);
    assert line[7] == Response.COLON;
    assert forall i :: 0 <= i < 7 ==> line[i] == X_TOKEN[i];
    assert p == Some(7);
    assert line[..7] == X_TOKEN && line[8..] == [Response.SPACE] + token;
    NothingToTrim(X_TOKEN);
    NothingToTrim(token);
    assert ([Response.SPACE] + token)[1..] == token;
  }

  // ---------------------------------------------------------------- the server's head

  lemma {:induction false} FirstOccurrence(front: Bytes, b: byte, rest: Bytes)
    requires b !in front
    ensures Response.IndexOf(front + ([b] + rest), b) == Some(|front|)
  {
    var s := front + ([b] + rest);
    if front != [] {
      FirstOccurrence(front[1..], b, rest);
      assert s[1..] == front[1..] + ([b] + rest);
    }
  }

  /** 101 to a WebSocket client, 200 to others. */
  function StatusCode(websocket: bool): Bytes {
    if websocket then [49, 48, 49] else [50, 48, 48]
  }

  function StatusLine(proto: Bytes, websocket: bool, text: Bytes): Bytes {
    proto + ([Response.SPACE] + (StatusCode(websocket) + ([Response.SPACE] + text)))
  }

  lemma StatusLineRead(proto: Bytes, websocket: bool, text: Bytes)
    requires Response.SPACE !in proto
    ensures Response.StatusOf(StatusLine(proto, websocket, text)) == Ok(if websocket then 101 else 200)
  {
    var code := StatusCode(websocket);
    var rest := code + ([Response.SPACE] + text);
    FirstOccurrence(proto, Response.SPACE, rest);
    FirstOccurrence(code, Response.SPACE, text);
    assert StatusLine(proto, websocket, text)[|proto| + 1..] == rest;
    assert rest[..3] == code;
    CodeNumber(websocket);
  }

  lemma CodeNumber(websocket: bool)
    ensures Response.Atoi(StatusCode(websocket)) == Some(if websocket then 101 else 200)
  {
    ThreeDigits(if websocket then 49 else 50, 48, if websocket then 49 else 48);
    var code := StatusCode(websocket);
    assert forall i :: 0 <= i < |code| ==> Response.Digit(code[i]);
  }

  lemma ThreeDigits(a: int, b: int, c: int)
    requires 48 <= a < 58 && 48 <= b < 58 && 48 <= c < 58
    ensures Response.Decimal([a, b, c]) == 100 * (a - 48) + 10 * (b - 48) + (c - 48)
  {
    var one: Bytes, two: Bytes, three: Bytes := [a], [a, b], [a, b, c];
    assert three[..2] == two && two[..1] == one && one[..0] == [];
    assert Response.Decimal(one) == a - 48;
    assert Response.Decimal(two) == 10 * (a - 48) + (b - 48);
  }

  predicate Field(line: Bytes) {
    Plain(line) && Response.COLON in line && |line| <= 15359
  }

  lemma {:induction false} FieldsRead(canon: Bytes -> Bytes, head: Response.Head, fields: seq<Bytes>)
    requires forall i :: 0 <= i < |fields| ==> Field(fields[i])
    ensures AddLines(Response.Adding(canon), Response.Progress(head, false), fields).Ok?
    ensures AddLines(Response.Adding(canon), Response.Progress(head, false), fields).value.status == head.status
    decreases |fields|
  {
    if fields != [] {
      var head' := Response.AddLine(canon, head, false, fields[0]).value;
      FieldsRead(canon, head', fields[1..]);
    }
  }

  /** Whether this can be the beginning of the server's head: protocol, status, and fixed header fields. */
  ghost predicate HeadBegins(lines: seq<Bytes>, websocket: bool) {
    && lines != []
    && (exists proto: Bytes, text: Bytes ::
          Response.SPACE !in proto && lines[0] == StatusLine(proto, websocket, text))
    && Plain(lines[0]) && |lines[0]| <= 15359
    && forall i :: 1 <= i < |lines| ==> Field(lines[i])
  }

  function Ascii(s: string): (r: Bytes)
    ensures |r| == |s|
  {
    seq(|s|, i requires 0 <= i < |s| => s[i] as int % 256)
  }

  const CONTENT_TYPE := "Content-Type: image/png,stream=1"
  const CONTENT_ENCODING := "Content-Transfer-Encoding: custom"

  /** The fixed fields of the server's head; accept and wsProto are the values of the WebSocket fields. */
  function FixedFields(websocket: bool, accept: Bytes, wsProto: Bytes): seq<Bytes> {
    if websocket then
      [Ascii("Connection: Upgrade")] + [Ascii("Upgrade: websocket")] + [Ascii("Sec-WebSocket-Accept: ") + accept]
      + (if wsProto == [] then [] else [Ascii("Sec-WebSocket-Protocol: ") + wsProto])
      + [Ascii("Sec-WebSocket-Version: 7")]
    else
      [Ascii("Connection: close")] + [Ascii(CONTENT_TYPE)] + [Ascii(CONTENT_ENCODING)]
  }

  /** The server's head up to the token. */
  function ResponseHead(proto: Bytes, websocket: bool, accept: Bytes, wsProto: Bytes): seq<Bytes> {
    [StatusLine(proto, websocket, Ascii(if websocket then "Switching Protocols" else "OK"))]
    + FixedFields(websocket, accept, wsProto)
  }

  /** What may stand in a line next to a fixed text. */
  predicate Value(v: Bytes) {
    13 !in v && |v| <= 15000
  }

  lemma FieldIs(name: string, v: Bytes)
    requires Value(v) && 0 < |name| < 100 && ':' in name && forall i :: 0 <= i < |name| ==> '\r' < name[i] < '~'
    ensures Field(Ascii(name) + v)
  {
    var line := Ascii(name) + v;
    var i :| 0 <= i < |name| && name[i] == ':';
    assert line[i] == Response.COLON;
    assert 13 !in Ascii(name) by {
      forall k | 0 <= k < |name| ensures Ascii(name)[k] != 13 {
      }
    }
  }

  lemma FixedField(name: string)
    requires 0 < |name| < 100 && ':' in name && forall i :: 0 <= i < |name| ==> '\r' < name[i] < '~'
    ensures Field(Ascii(name))
  {
    FieldIs(name, []);
    assert Ascii(name) + [] == Ascii(name);
  }

  predicate AllFields(lines: seq<Bytes>) {
    forall i :: 0 <= i < |lines| ==> Field(lines[i])
  }

  lemma ContentTypeFixed()
    ensures Field(Ascii(CONTENT_TYPE))
  {
    FixedField(CONTENT_TYPE);
  }

  lemma ContentEncodingFixed()
    ensures Field(Ascii(CONTENT_ENCODING))
  {
    FixedField(CONTENT_ENCODING);
  }

  lemma PlainFieldsFixed()
    ensures AllFields([Ascii("Connection: close")] + [Ascii(CONTENT_TYPE)] + [Ascii(CONTENT_ENCODING)])
  {
    FixedField("Connection: close");
    ContentTypeFixed();
    ContentEncodingFixed();
  }

  lemma AcceptField(accept: Bytes)
    requires Value(accept)
    ensures Field(Ascii("Sec-WebSocket-Accept: ") + accept)
  {
    FieldIs("Sec-WebSocket-Accept: ", accept);
  }

  lemma UpgradeFieldsFixed(accept: Bytes)
    requires Value(accept)
    ensures AllFields([Ascii("Connection: Upgrade")] + [Ascii("Upgrade: websocket")]
                      + [Ascii("Sec-WebSocket-Accept: ") + accept])
  {
    FixedField("Connection: Upgrade");
    FixedField("Upgrade: websocket");
    AcceptField(accept);
  }

  lemma FieldsAreFields(websocket: bool, accept: Bytes, wsProto: Bytes)
    requires Value(accept) && Value(wsProto)
    ensures AllFields(FixedFields(websocket, accept, wsProto))
  {
    if websocket {
      UpgradeFieldsFixed(accept);
      FieldIs("Sec-WebSocket-Protocol: ", wsProto);
      FixedField("Sec-WebSocket-Version: 7");
    } else {
      PlainFieldsFixed();
    }
  }

  lemma StatusLineIsPlain(proto: Bytes, websocket: bool, text: Bytes)
    requires Value(proto) && 13 !in text && |text| < 100
    ensures Plain(StatusLine(proto, websocket, text)) && |StatusLine(proto, websocket, text)| <= 15359
  {
  }

  /** The heads the server writes are of that kind. */
  lemma ResponseHeadBegins(proto: Bytes, websocket: bool, accept: Bytes, wsProto: Bytes)
    requires Value(proto) && Response.SPACE !in proto && Value(accept) && Value(wsProto)
    ensures HeadBegins(ResponseHead(proto, websocket, accept, wsProto), websocket)
  {
    var text, fields := Ascii(if websocket then "Switching Protocols" else "OK"),
                        FixedFields(websocket, accept, wsProto);
    StatusLineIsPlain(proto, websocket, text);
    FieldsAreFields(websocket, accept, wsProto);
    StatusThenFields(proto, websocket, text, fields);
  }

  lemma StatusThenFields(proto: Bytes, websocket: bool, text: Bytes, fields: seq<Bytes>)
    requires Response.SPACE !in proto && AllFields(fields)
    requires Plain(StatusLine(proto, websocket, text)) && |StatusLine(proto, websocket, text)| <= 15359
    ensures HeadBegins([StatusLine(proto, websocket, text)] + fields, websocket)
  {
  }

  lemma HeadBeginsRead(canon: Bytes -> Bytes, lines: seq<Bytes>, websocket: bool)
    requires HeadBegins(lines, websocket)
    ensures var r := AddLines(Response.Adding(canon), Response.Begin, lines);
            r.Ok? && r.value.status == if websocket then 101 else 200
  {
    var proto: Bytes, text: Bytes :| Response.SPACE !in proto && lines[0] == StatusLine(proto, websocket, text);
    StatusLineRead(proto, websocket, text);
    FieldsRead(canon, Response.Begin.head.(status := if websocket then 101 else 200), lines[1..]);
  }

  /** Header.Get("X-Token"): empty if there is no such header. */
  function Token(canon: Bytes -> Bytes, head: Response.Head): Bytes {
    if canon(X_TOKEN) in head.header then head.header[canon(X_TOKEN)] else []
  }

  lemma TokenIsAdded(canon: Bytes -> Bytes, lines: seq<Bytes>, websocket: bool, token: Bytes)
    requires HeadBegins(lines, websocket)
    requires token != [] && forall i :: 0 <= i < |token| ==> Base64Char(token[i])
    ensures var r := AddLines(Response.Adding(canon), Response.Begin, lines + [TokenLine(token)]);
            r.Ok? && Token(canon, r.value) == token && r.value.status == if websocket then 101 else 200
  {
    HeadBeginsRead(canon, lines, websocket);
    TokenLineRead(canon, AddLines(Response.Adding(canon), Response.Begin, lines).value, token);
    LastLine(Response.Adding(canon), Response.Begin, lines, TokenLine(token));
  }

  lemma TokenLineIsPlain(token: Bytes)
    requires forall i :: 0 <= i < |token| ==> Base64Char(token[i])
    ensures Plain(TokenLine(token)) && |TokenLine(token)| == 9 + |token|
  {
  }

  lemma HeadLines(lines: seq<Bytes>, websocket: bool, token: Bytes)
    requires HeadBegins(lines, websocket) && |token| <= 15000 && forall i :: 0 <= i < |token| ==> Base64Char(token[i])
    ensures var all := lines + [TokenLine(token)]; forall i :: 0 <= i < |all| ==> Plain(all[i]) && |all[i]| <= 15359
  {
    assert forall i :: 0 <= i < |lines| ==> Plain(lines[i]) && |lines[i]| <= 15359;
    TokenLineIsPlain(token);
  }

  /**
   * The server's head: a status line and fixed header lines, then the token. The client's ReadResponse finds
   * the token in it whatever pieces it arrives in.
   */
  lemma TokenArrives(canon: Bytes -> Bytes, lines: seq<Bytes>, websocket: bool, token: Bytes, more: Bytes)
    requires HeadBegins(lines, websocket)
    requires 0 < |token| <= 15000 && forall i :: 0 <= i < |token| ==> Base64Char(token[i])
    ensures var s := Text(lines + [TokenLine(token)]) + more;
            var r := Response.Parse(Response.Adding(canon), Response.Begin, s);
            && Response.ShortLines(s) && r.Ok? && Token(canon, r.value) == token
            && r.value.status == if websocket then 101 else 200
  {
    var all := lines + [TokenLine(token)];
    TokenIsAdded(canon, lines, websocket, token);
    HeadLines(lines, websocket, token);
    HeadRoundTrip(Response.Adding(canon), Response.Begin, all, more);
    TextFits(all, more);
  }

  /** All the server writes before its framer takes over. */
  function Answer(proto: Bytes, websocket: bool, accept: Bytes, wsProto: Bytes, token: Bytes): Bytes {
    Text(ResponseHead(proto, websocket, accept, wsProto) + [TokenLine(token)])
  }

  /** Connect from the response on: read the head from these pieces, take the token, make the framer. */
  function ClientEnd(
      b64: Base64, aes: BlockCipher, psk: Bytes, authBytes: Bytes, ts: Int64, websocket: bool,
      canon: Bytes -> Bytes, pieces: seq<Bytes>): Result<Framer>
    requires |authBytes| == 8 + BLOCK
  {
    match Response.ReadFrom(Response.Adding(canon), Response.Begin, [], pieces).answer
    case Err(e) => Err(e)
    case Ok(head) => ClientFramer(b64, aes, psk, authBytes, ts, Token(canon, head), websocket)
  }

  /** The values the server copies into its head hold no carriage return, and the protocol no space. */
  predicate Copyable(proto: Bytes, accept: Bytes, wsProto: Bytes) {
    Value(proto) && Response.SPACE !in proto && Value(accept) && Value(wsProto)
  }

  /** The client's ReadResponse has used up the pieces and lost nothing. */
  predicate LeavesNothing(canon: Bytes -> Bytes, pieces: seq<Bytes>) {
    var o := Response.ReadFrom(Response.Adding(canon), Response.Begin, [], pieces);
    o.lost == [] && Concat(o.unread) == []
  }

  lemma ReadLeaves(canon: Bytes -> Bytes, lines: seq<Bytes>, more: Bytes, pieces: seq<Bytes>)
    requires (forall i :: 0 <= i < |lines| ==> Plain(lines[i])) && Concat(pieces) == Text(lines) + more
    requires Response.ReadFrom(Response.Adding(canon), Response.Begin, [], pieces).answer.Ok?
    ensures var o := Response.ReadFrom(Response.Adding(canon), Response.Begin, [], pieces);
            && o.lost + Concat(o.unread) == more
            && (o.lost == [] <==> Response.HeadEndsARead(pieces))
            && (more == [] ==> LeavesNothing(canon, pieces))
  {
    AfterText(lines, more);
    assert [] + Concat(pieces) == Concat(pieces);
    Response.ReadIsParse(Response.Adding(canon), Response.Begin, [], pieces);
    Response.LostNothingExactly(Response.Adding(canon), pieces);
  }

  /**
   * The whole exchange: when the server accepts an honest client, the client reads the head in any pieces and
   * ends with the counterpart of the server's framer, under a valid key. Bytes behind the head are lost or left
   * unread, in this order, and none are lost exactly when some number of reads takes the head alone.
   */
  lemma HandshakeCompletes(
      b64: Base64, aes: BlockCipher, psk: Bytes, clientId: Bytes, ts: Int64, half: Block, iv: Block,
      websocket: bool, now: Int64, keyNewRaw: Block, iv': Block, server: Accepted,
      canon: Bytes -> Bytes, proto: Bytes, accept: Bytes, wsProto: Bytes, more: Bytes, pieces: seq<Bytes>)
    requires Lawful(b64) && clientId != [] && Copyable(proto, accept, wsProto)
    requires ServerAnswer(b64, aes, psk, clientId, AuthField(b64, aes, psk, ts, half, iv), websocket, now, keyNewRaw,
                          iv') == Ok(server)
    requires Concat(pieces) == Answer(proto, websocket, accept, wsProto, server.token) + more
    ensures var client := ClientEnd(b64, aes, psk, AuthBytes(ts, half), ts, websocket, canon, pieces);
            && client.Ok? && server.framer == Peer(client.value) && ValidKey(client.value.key)
            && InTheirRoles(client.value, server.framer, websocket, aes, AgreedKey(keyNewRaw, half, ts))
    ensures var o := Response.ReadFrom(Response.Adding(canon), Response.Begin, [], pieces);
            && o.lost + Concat(o.unread) == more
            && (o.lost == [] <==> Response.HeadEndsARead(pieces))
            && (more == [] ==> LeavesNothing(canon, pieces))
  {
    var lines := ResponseHead(proto, websocket, accept, wsProto);
    KeyAgreement(b64, aes, psk, clientId, ts, half, iv, websocket, now, keyNewRaw, iv', server);
    ResponseHeadBegins(proto, websocket, accept, wsProto);
    TokenArrives(canon, lines, websocket, server.token, more);
    Response.ShortLinesAreRead(Response.Adding(canon), pieces);
    HeadLines(lines, websocket, server.token);
    ReadLeaves(canon, lines + [TokenLine(server.token)], more, pieces);
  }
}
