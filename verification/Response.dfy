/** http/response.go: the head of an HTTP response, read in pieces. */
module Response {
  import opened Bytes
  import opened Stream
  import opened Search
  import opened Arrays

  const CRLF: Bytes := [13, 10]
  const SPACE: byte := 32
  const COLON: byte := 58

  /** net/http's Header.Set changes the case of names; `canon` is that change. */
  type Header = map<Bytes, Bytes>

  datatype Head = Head(status: int, header: Header)

  // ---------------------------------------------------------------- lines

  function IndexOf(s: Bytes, b: byte): (r: Option<nat>)
    ensures r == None ==> b !in s
    ensures r.Some? ==> r.value < |s| && s[r.value] == b && b !in s[..r.value]
  {
    if s == [] then None
    else if s[0] == b then Some(0)
    else match IndexOf(s[1..], b)
      case None => None
      case Some(p) => assert s[..p + 1] == [s[0]] + s[1..][..p]; Some(p + 1)
  }

  predicate Digit(b: byte) {
    48 <= b <= 57
  }

  function Decimal(s: Bytes): int {
    if s == [] then 0 else var d: int := s[|s| - 1]; 10 * Decimal(s[..|s| - 1]) + (d - 48)
  }

  /** strconv.Atoi on a 64-bit machine. */
  function Atoi(s: Bytes): Option<int> {
    var digits := if s != [] && (s[0] == 43 || s[0] == 45) then s[1..] else s;
    if digits == [] || exists i :: 0 <= i < |digits| && !Digit(digits[i]) then None
    else
      var n := if s[0] == 45 then 0 - Decimal(digits) else Decimal(digits);
      if -0x8000_0000_0000_0000 <= n < 0x8000_0000_0000_0000 then Some(n) else None
  }

  /** parseResponseLine: protocol, status code and text, separated by the first two spaces. */
  function StatusOf(line: Bytes): Result<int> {
    match IndexOf(line, SPACE)
    case None => Err(Malformed("invalid response line."))
    case Some(a) =>
      var rest := line[a + 1..];
      match IndexOf(rest, SPACE)
      case None => Err(Malformed("invalid response line."))
      case Some(b) =>
        match Atoi(rest[..b])
        case None => Err(Malformed("invalid syntax"))
        case Some(code) => Ok(code)
  }

  predicate White(b: byte) {
    b == 32 || 9 <= b <= 13
  }

  function TrimLeft(s: Bytes): Bytes {
    if s != [] && White(s[0]) then TrimLeft(s[1..]) else s
  }

  function TrimRight(s: Bytes): Bytes {
    if s != [] && White(s[|s| - 1]) then TrimRight(s[..|s| - 1]) else s
  }

  function TrimSpace(s: Bytes): Bytes {
    TrimRight(TrimLeft(s))
  }

  /** parseHeaderLine: name and value around the first colon. */
  function FieldOf(line: Bytes): Result<(Bytes, Bytes)> {
    match IndexOf(line, COLON)
    case None => Err(Malformed("invalid header line."))
    case Some(p) => Ok((TrimSpace(line[..p]), TrimSpace(line[p + 1..])))
  }

  /** One non-empty line: the first is the response line, the others are header fields. */
  function AddLine(canon: Bytes -> Bytes, head: Head, first: bool, line: Bytes): Result<Head> {
    if first then
      match StatusOf(line)
      case Err(e) => Err(e)
      case Ok(code) => Ok(head.(status := code))
    else
      match FieldOf(line)
      case Err(e) => Err(e)
      case Ok(f) => Ok(head.(header := head.header[canon(f.0) := f.1]))
  }

  /** What is done with a line; kept abstract where only the cutting into lines matters. */
  type Adder = (Head, bool, Bytes) -> Result<Head>

  function Adding(canon: Bytes -> Bytes): Adder {
    (head, first, line) => AddLine(canon, head, first, line)
  }

  // ---------------------------------------------------------------- what a line says

  lemma IndexOfFirst(a: Bytes, b: byte, rest: Bytes)
    requires b !in a
    ensures IndexOf(a + [b] + rest, b) == Some(|a|)
    ensures (a + [b] + rest)[..|a|] == a && (a + [b] + rest)[|a| + 1..] == rest
  {
    var s := a + [b] + rest;
    assert s[|a|] == b;
    var p := IndexOf(s, b).value;
    assert forall i :: 0 <= i < p ==> s[..p][i] == s[i];
    assert forall i :: 0 <= i < |a| ==> s[i] == a[i];
  }

  /** A response line: what stands between the first two spaces is the code. */
  lemma StatusRead(proto: Bytes, code: Bytes, text: Bytes)
    requires SPACE !in proto && SPACE !in code
    ensures StatusOf(proto + [SPACE] + (code + [SPACE] + text)) ==
              match Atoi(code) case None => Err(Malformed("invalid syntax")) case Some(n) => Ok(n)
  {
    IndexOfFirst(proto, SPACE, code + [SPACE] + text);
    IndexOfFirst(code, SPACE, text);
  }

  /** A header line: name and value around the first colon, without the white space around them. */
  lemma FieldRead(name: Bytes, value: Bytes)
    requires COLON !in name
    ensures FieldOf(name + [COLON] + value) == Ok((TrimSpace(name), TrimSpace(value)))
  {
    IndexOfFirst(name, COLON, value);
  }

  predicate AllWhite(s: Bytes) {
    forall i :: 0 <= i < |s| ==> White(s[i])
  }

  lemma {:induction false} TrimLeftCuts(a: Bytes, v: Bytes)
    requires AllWhite(a) && (v == [] || !White(v[0]))
    ensures TrimLeft(a + v) == v
  {
    if a == [] {
      assert a + v == v;
    } else {
      assert (a + v)[1..] == a[1..] + v;
      TrimLeftCuts(a[1..], v);
    }
  }

  lemma {:induction false} TrimRightCuts(v: Bytes, b: Bytes)
    requires AllWhite(b) && (v == [] || !White(v[|v| - 1]))
    ensures TrimRight(v + b) == v
  {
    if b == [] {
      assert v + b == v;
    } else {
      assert (v + b)[..|v + b| - 1] == v + b[..|b| - 1];
      TrimRightCuts(v, b[..|b| - 1]);
    }
  }

  /** Trimming takes the white space off both ends and nothing else. */
  lemma TrimExactly(a: Bytes, v: Bytes, b: Bytes)
    requires AllWhite(a) && AllWhite(b) && v != [] && !White(v[0]) && !White(v[|v| - 1])
    ensures TrimSpace(a + (v + b)) == v
  {
    TrimLeftCuts(a, v + b);
    TrimRightCuts(v, b);
  }

  /** A number in decimal digits. */
  function DecimalText(n: nat): (r: Bytes)
    ensures r != [] && forall i :: 0 <= i < |r| ==> Digit(r[i])
  {
    if n < 10 then [48 + n] else DecimalText(n / 10) + [48 + n % 10]
  }

  lemma {:induction false} DecimalRead(n: nat)
    ensures Decimal(DecimalText(n)) == n
  {
    var text := DecimalText(n);
    if n < 10 {
      assert text[..0] == [] && Decimal(text[..0]) == 0;
    } else {
      DecimalRead(n / 10);
      assert text[..|text| - 1] == DecimalText(n / 10);
    }
  }

  /** strconv.Atoi reads decimal numbers below 2^63 and nothing beyond. */
  lemma AtoiRead(n: nat)
    ensures Atoi(DecimalText(n)) == if n < 0x8000_0000_0000_0000 then Some(n) else None
  {
    DecimalRead(n);
    assert Digit(DecimalText(n)[0]);
  }

  // ---------------------------------------------------------------- the whole-stream parse

  /** How far a parse has come: the head so far, and whether the response line is still to come. */
  datatype Progress = Progress(head: Head, first: bool)

  const Begin: Progress := Progress(Head(0, map[]), true)

  /** The head of a complete stream, line by line, up to the first empty line. */
  function Parse(add: Adder, at: Progress, s: Bytes): Result<Head>
    decreases |s|
  {
    match Index(s, CRLF)
    case None => Err(EOF)
    case Some(p) =>
      IndexIsFirst(s, CRLF);
      if p == 0 then Ok(at.head)
      else match add(at.head, at.first, s[..p])
        case Err(e) => Err(e)
        case Ok(head) => Parse(add, Progress(head, false), s[p + 2..])
  }

  /** What follows the head: the bytes behind the first empty line. */
  function AfterHead(s: Bytes): Bytes
    decreases |s|
  {
    match Index(s, CRLF)
    case None => []
    case Some(p) =>
      IndexIsFirst(s, CRLF);
      if p == 0 then s[2..] else AfterHead(s[p + 2..])
  }

  const HEADER_SIZE: nat := 1024 * 16
  const READ_SIZE: nat := 1024

  /**
   * Room for every line the parse gets to: a whole read may arrive behind the line and the first byte of its
   * end, unless the stream ends before.
   */
  predicate Roomy(add: Adder, at: Progress, s: Bytes)
    decreases |s|
  {
    match Index(s, CRLF)
    case None => |s| <= HEADER_SIZE
    case Some(p) =>
      IndexIsFirst(s, CRLF);
      && Min(p + 1 + READ_SIZE, |s|) <= HEADER_SIZE
      && (p > 0 ==>
            match add(at.head, at.first, s[..p])
            case Err(_) => true
            case Ok(head) => Roomy(add, Progress(head, false), s[p + 2..]))
  }

  lemma ParseLine(add: Adder, at: Progress, s: Bytes, p: nat)
    requires Index(s, CRLF) == Some(p)
    ensures p + 2 <= |s|
    ensures p == 0 ==> Parse(add, at, s) == Ok(at.head) && AfterHead(s) == s[2..]
    ensures p > 0 ==> AfterHead(s) == AfterHead(s[p + 2..])
    ensures p > 0 ==> Parse(add, at, s) == match add(at.head, at.first, s[..p])
                                             case Err(e) => Err(e)
                                             case Ok(head) => Parse(add, Progress(head, false), s[p + 2..])
  {
    IndexIsFirst(s, CRLF);
  }

  lemma LineBehind(b: Bytes, more: Bytes, p: nat)
    requires Index(b, CRLF) == Some(p)
    ensures p + 2 <= |b| && Index(b + more, CRLF) == Some(p)
    ensures (b + more)[..p] == b[..p] && (b + more)[p + 2..] == b[p + 2..] + more
  {
    IndexIsFirst(b, CRLF);
    IndexExtends(b, more, CRLF);
  }

  // ---------------------------------------------------------------- the incremental reader, as a function

  /** The lines of the buffer are used up: the answer and the bytes behind it, or how far this got. */
  datatype Lines = Done(answer: Result<Head>, rest: Bytes) | More(at: Progress, rest: Bytes)

  /** The inner loop. */
  function LinesOf(add: Adder, at: Progress, b: Bytes): Lines
    decreases |b|
  {
    match Index(b, CRLF)
    case None => More(at, b)
    case Some(p) =>
      IndexIsFirst(b, CRLF);
      if p == 0 then Done(Ok(at.head), b[2..])
      else match add(at.head, at.first, b[..p])
        case Err(e) => Done(Err(e), b[p + 2..])
        case Ok(head) => LinesOf(add, Progress(head, false), b[p + 2..])
  }

  /** The answer, the bytes left in the line buffer, and the pieces left in the connection. */
  datatype Outcome = Outcome(answer: Result<Head>, lost: Bytes, unread: seq<Bytes>)

  /** ReadResponse from an unfinished line b on, meeting these pieces. */
  function ReadFrom(add: Adder, at: Progress, b: Bytes, pieces: seq<Bytes>): Outcome
    decreases |pieces|, if pieces == [] then 0 else |pieces[0]|
  {
    if pieces == [] then Outcome(Err(EOF), b, [])
    else
      var got, after := FirstBytes(pieces, READ_SIZE), AfterBytes(pieces, READ_SIZE);
      if |b| + |got| > HEADER_SIZE then Outcome(Err(ShortBuffer), b, after)
      else match LinesOf(add, at, b + got)
        case Done(answer, rest) => Outcome(answer, rest, after)
        case More(at', rest) => ReadFrom(add, at', rest, after)
  }

  // ---------------------------------------------------------------- it parses what it has room for

  lemma ParseStep(add: Adder, at: Progress, b: Bytes, more: Bytes, p: nat)
    requires Index(b, CRLF) == Some(p)
    ensures p + 2 <= |b|
    ensures AfterHead(b + more) == if p == 0 then b[2..] + more else AfterHead(b[p + 2..] + more)
    ensures Parse(add, at, b + more) ==
              if p == 0 then Ok(at.head)
              else match add(at.head, at.first, b[..p])
                case Err(e) => Err(e)
                case Ok(head) => Parse(add, Progress(head, false), b[p + 2..] + more)
  {
    LineBehind(b, more, p);
    ParseLine(add, at, b + more, p);
  }

  /** What a whole-stream parse says of lines taken off what has arrived. */
  predicate Consistent(add: Adder, l: Lines, more: Bytes, answer: Result<Head>, behind: Bytes) {
    match l
    case Done(r, rest) => r == answer && (r.Ok? ==> rest + more == behind)
    case More(at, rest) =>
      Index(rest, CRLF) == None && Parse(add, at, rest + more) == answer && AfterHead(rest + more) == behind
  }

  /** Taking lines off what has arrived changes neither the answer nor what follows the head. */
  lemma {:induction false} LinesKeepParse(add: Adder, at: Progress, b: Bytes, more: Bytes)
    ensures Consistent(add, LinesOf(add, at, b), more, Parse(add, at, b + more), AfterHead(b + more))
    decreases |b|
  {
    match Index(b, CRLF)
    case None =>
    case Some(p) =>
      ParseStep(add, at, b, more, p);
      if p > 0 {
        match add(at.head, at.first, b[..p])
        case Err(_) =>
        case Ok(head) => LinesKeepParse(add, Progress(head, false), b[p + 2..], more);
      }
  }

  lemma RoomBehindLine(add: Adder, at: Progress, b: Bytes, more: Bytes, p: nat)
    requires Index(b, CRLF) == Some(p) && p > 0 && p + 2 <= |b|
    requires Roomy(add, at, b + more) && add(at.head, at.first, b[..p]).Ok?
    ensures Roomy(add, Progress(add(at.head, at.first, b[..p]).value, false), b[p + 2..] + more)
  {
    LineBehind(b, more, p);
  }

  lemma {:induction false} LinesKeepRoom(add: Adder, at: Progress, b: Bytes, more: Bytes)
    requires Roomy(add, at, b + more) && LinesOf(add, at, b).More?
    ensures var l := LinesOf(add, at, b); Roomy(add, l.at, l.rest + more)
    decreases |b|
  {
    match Index(b, CRLF)
    case None =>
    case Some(p) =>
      IndexIsFirst(b, CRLF);
      var head := add(at.head, at.first, b[..p]).value;
      RoomBehindLine(add, at, b, more, p);
      LinesKeepRoom(add, Progress(head, false), b[p + 2..], more);
  }

  /** What an unfinished line and one more read leave in the buffer is shorter than that read. */
  lemma {:induction false} LeftIsShort(add: Adder, at: Progress, b: Bytes, got: Bytes)
    requires Index(b, CRLF) == None && LinesOf(add, at, b + got).Done?
    ensures |LinesOf(add, at, b + got).rest| < |got|
  {
    var p := Index(b + got, CRLF).value;
    IndexBehind(b, got, CRLF);
    LineBehind(b + got, [], p);
    if p > 0 {
      match add(at.head, at.first, (b + got)[..p])
      case Err(_) =>
      case Ok(head) => LinesShrink(add, Progress(head, false), (b + got)[p + 2..]);
    }
  }

  lemma {:induction false} LinesShrink(add: Adder, at: Progress, b: Bytes)
    ensures |LinesOf(add, at, b).rest| <= |b|
    decreases |b|
  {
    match Index(b, CRLF)
    case None =>
    case Some(p) =>
      LineBehind(b, [], p);
      if p > 0 {
        match add(at.head, at.first, b[..p])
        case Err(_) =>
        case Ok(head) => LinesShrink(add, Progress(head, false), b[p + 2..]);
      }
  }

  /** With room for every line no read overflows the buffer. */
  lemma RoomForOneRead(add: Adder, at: Progress, b: Bytes, got: Bytes, more: Bytes)
    requires Index(b, CRLF) == None && |got| <= READ_SIZE && Roomy(add, at, b + (got + more))
    ensures |b| + |got| <= HEADER_SIZE
  {
    if Index(b + (got + more), CRLF).Some? {
      IndexBehind(b, got + more, CRLF);
    }
  }

  /**
   * With room for every line, the answer is that of the whole-stream parse however the stream is cut; what
   * arrived in one read with the end of the head is lost, the rest is still to be read.
   */
  lemma {:induction false} ReadIsParse(add: Adder, at: Progress, b: Bytes, pieces: seq<Bytes>)
    requires Index(b, CRLF) == None
    ensures var s, o := b + Concat(pieces), ReadFrom(add, at, b, pieces);
            && (Roomy(add, at, s) ==> o.answer == Parse(add, at, s))
            && (o.answer == Parse(add, at, s) || o.answer == Err(ShortBuffer))
            && (o.answer.Ok? ==> |o.lost| < READ_SIZE && o.lost + Concat(o.unread) == AfterHead(s))
    decreases |pieces|, if pieces == [] then 0 else |pieces[0]|
  {
    if pieces == [] {
      assert b + [] == b;
    } else {
      var got, after := FirstBytes(pieces, READ_SIZE), AfterBytes(pieces, READ_SIZE);
      ReadSplits(pieces, READ_SIZE);
      if Roomy(add, at, b + Concat(pieces)) {
        RoomForOneRead(add, at, b, got, Concat(after));
      }
      if |b| + |got| <= HEADER_SIZE {
        Assoc(b, got, Concat(after));
        LinesKeepParse(add, at, b + got, Concat(after));
        if Roomy(add, at, (b + got) + Concat(after)) && LinesOf(add, at, b + got).More? {
          LinesKeepRoom(add, at, b + got, Concat(after));
        }
        match LinesOf(add, at, b + got)
        case Done(_, _) => LeftIsShort(add, at, b, got);
        case More(at', rest) => ReadIsParse(add, at', rest, after);
      }
    }
  }

  /** For instance, when everything comes in one read nothing is left of what follows the head. */
  lemma RestOfReadIsLost(add: Adder, s: Bytes)
    requires |s| <= READ_SIZE && Parse(add, Begin, s).Ok?
    ensures ReadFrom(add, Begin, [], [s]) == Outcome(Parse(add, Begin, s), AfterHead(s), [])
  {
    assert [] + s == s && s + [] == s && s[..|s|] == s;
    LinesKeepParse(add, Begin, s, []);
    var left := LinesOf(add, Begin, s).rest;
    assert left + [] == left;
  }

  // ---------------------------------------------------------------- what is lost

  /** The bytes the first k reads take. */
  function Taken(pieces: seq<Bytes>, k: nat): Bytes
    decreases k
  {
    if k == 0 || pieces == [] then []
    else FirstBytes(pieces, READ_SIZE) + Taken(AfterBytes(pieces, READ_SIZE), k - 1)
  }

  /** How many reads it takes to come to an answer. */
  function ReadsUsed(add: Adder, at: Progress, b: Bytes, pieces: seq<Bytes>): nat
    decreases |pieces|, if pieces == [] then 0 else |pieces[0]|
  {
    if pieces == [] then 0
    else
      var got, after := FirstBytes(pieces, READ_SIZE), AfterBytes(pieces, READ_SIZE);
      if |b| + |got| > HEADER_SIZE then 1
      else match LinesOf(add, at, b + got)
        case Done(_, _) => 1
        case More(at', rest) => 1 + ReadsUsed(add, at', rest, after)
  }

  lemma {:induction false} TakenGrows(pieces: seq<Bytes>, j: nat, k: nat)
    requires j <= k
    ensures |Taken(pieces, j)| <= |Taken(pieces, k)|
    decreases k
  {
    if j > 0 && pieces != [] {
      TakenGrows(AfterBytes(pieces, READ_SIZE), j - 1, k - 1);
    }
  }

  /** An answer has used up a first part of the stream, and what is lost came with the last read of it. */
  lemma {:induction false} LostIsInLastRead(add: Adder, at: Progress, b: Bytes, pieces: seq<Bytes>)
    requires Index(b, CRLF) == None && ReadFrom(add, at, b, pieces).answer.Ok?
    ensures var o, k := ReadFrom(add, at, b, pieces), ReadsUsed(add, at, b, pieces);
            && k > 0
            && Taken(pieces, k) + Concat(o.unread) == Concat(pieces)
            && |Taken(pieces, k - 1)| + |o.lost| < |Taken(pieces, k)|
    decreases |pieces|, if pieces == [] then 0 else |pieces[0]|
  {
    var got, after := FirstBytes(pieces, READ_SIZE), AfterBytes(pieces, READ_SIZE);
    ReadSplits(pieces, READ_SIZE);
    match LinesOf(add, at, b + got)
    case Done(_, _) =>
      LeftIsShort(add, at, b, got);
      OneReadTaken(pieces);
    case More(at', rest) =>
      LinesKeepParse(add, at, b + got, []);
      LostIsInLastRead(add, at', rest, after);
      OneReadMore(pieces, ReadsUsed(add, at', rest, after), ReadFrom(add, at', rest, after));
  }

  lemma OneReadMore(pieces: seq<Bytes>, k: nat, o: Outcome)
    requires pieces != [] && k > 0
    requires var after := AfterBytes(pieces, READ_SIZE);
             Taken(after, k) + Concat(o.unread) == Concat(after) &&
             |Taken(after, k - 1)| + |o.lost| < |Taken(after, k)|
    ensures Taken(pieces, 1 + k) + Concat(o.unread) == Concat(pieces)
    ensures |Taken(pieces, k)| + |o.lost| < |Taken(pieces, 1 + k)|
  {
    var after := AfterBytes(pieces, READ_SIZE);
    ReadSplits(pieces, READ_SIZE);
    Assoc(FirstBytes(pieces, READ_SIZE), Taken(after, k), Concat(o.unread));
  }

  lemma OneReadTaken(pieces: seq<Bytes>)
    requires pieces != []
    ensures Taken(pieces, 0) == [] && Taken(pieces, 1) == FirstBytes(pieces, READ_SIZE)
  {
    var got := FirstBytes(pieces, READ_SIZE);
    assert Taken(AfterBytes(pieces, READ_SIZE), 0) == [];
    assert got + [] == got;
  }

  /** The length of the head, with the empty line that ends it. */
  function HeadSize(s: Bytes): int {
    |s| - |AfterHead(s)|
  }

  /** The reads used take the head and what is lost, and one read less takes less than the head. */
  lemma ReadsTake(add: Adder, pieces: seq<Bytes>) returns (k: nat)
    requires ReadFrom(add, Begin, [], pieces).answer.Ok?
    ensures var o, head := ReadFrom(add, Begin, [], pieces), HeadSize(Concat(pieces));
            && o.lost + Concat(o.unread) == AfterHead(Concat(pieces))
            && k > 0 && |Taken(pieces, k)| == head + |o.lost| && |Taken(pieces, k - 1)| < head
  {
    k := ReadsUsed(add, Begin, [], pieces);
    assert [] + Concat(pieces) == Concat(pieces);
    ReadIsParse(add, Begin, [], pieces);
    LostIsInLastRead(add, Begin, [], pieces);
  }

  /** Some number of reads takes the head and not a byte more. */
  ghost predicate HeadEndsARead(pieces: seq<Bytes>) {
    exists k: nat :: |Taken(pieces, k)| == HeadSize(Concat(pieces))
  }

  /**
   * Exactly when nothing behind the head is lost: some number of reads takes the head and not a byte more. The
   * condition is one on the pieces of the stream; it holds whenever nothing is sent behind the head.
   */
  lemma LostNothingExactly(add: Adder, pieces: seq<Bytes>)
    requires ReadFrom(add, Begin, [], pieces).answer.Ok?
    ensures var o := ReadFrom(add, Begin, [], pieces);
            && (o.lost == [] <==> HeadEndsARead(pieces))
            && (o.lost == [] <==> Concat(o.unread) == AfterHead(Concat(pieces)))
            && (AfterHead(Concat(pieces)) == [] ==> o.lost == [])
  {
    var k := ReadsTake(add, pieces);
    if HeadEndsARead(pieces) {
      var j: nat :| |Taken(pieces, j)| == HeadSize(Concat(pieces));
      if j < k {
        TakenGrows(pieces, j, k - 1);
      } else {
        TakenGrows(pieces, k, j);
      }
    }
  }

  /** The same for a head whose lines have room, which is therefore read: the condition is necessary and enough. */
  lemma RoomyLostNothingExactly(add: Adder, pieces: seq<Bytes>)
    requires Roomy(add, Begin, Concat(pieces)) && Parse(add, Begin, Concat(pieces)).Ok?
    ensures var o := ReadFrom(add, Begin, [], pieces);
            o.answer == Parse(add, Begin, Concat(pieces)) && (o.lost == [] <==> HeadEndsARead(pieces))
  {
    assert [] + Concat(pieces) == Concat(pieces);
    ReadIsParse(add, Begin, [], pieces);
    LostNothingExactly(add, pieces);
  }

  // ---------------------------------------------------------------- and without room some cutting fails

  /** A piece that completes no line is gathered behind b, or does not fit. */
  lemma {:induction false} Gather(add: Adder, at: Progress, b: Bytes, x: Bytes, more: seq<Bytes>)
    requires Index(b + x, CRLF) == None && |b| <= HEADER_SIZE
    ensures var o := ReadFrom(add, at, b, [x] + more);
            if |b| + |x| > HEADER_SIZE then o.answer == Err(ShortBuffer) else o == ReadFrom(add, at, b + x, more)
    decreases |x|
  {
    var got, after := FirstBytes([x] + more, READ_SIZE), AfterBytes([x] + more, READ_SIZE);
    if |x| <= READ_SIZE {
      assert got == x && after == more;
    } else {
      var rest := x[READ_SIZE..];
      assert after == [rest] + more;
      assert (b + got) + rest == b + x;
      NotEarlier(b + got, rest);
      if |b| + |got| <= HEADER_SIZE {
        Gather(add, at, b + got, rest, more);
      }
    }
  }

  lemma NotEarlier(b: Bytes, more: Bytes)
    requires Index(b + more, CRLF) == None
    ensures Index(b, CRLF) == None
  {
    if Index(b, CRLF).Some? {
      IndexExtends(b, more, CRLF);
    }
  }

  /** Before the last byte of its end has come, a line is not found; then it is. */
  lemma NotYet(s: Bytes, p: nat)
    requires Index(s, CRLF) == Some(p)
    ensures p + 2 <= |s| && Index(s[..p + 1], CRLF) == None && Index(s[..p + 2], CRLF) == Some(p)
  {
    IndexIsFirst(s, CRLF);
    FrontOf(s, p, p + 1);
    FrontOf(s, p, p + 2);
  }

  lemma FrontOf(s: Bytes, p: nat, n: nat)
    requires Index(s, CRLF) == Some(p) && n <= |s|
    ensures Index(s[..n], CRLF) == if n < p + 2 then None else Some(p)
  {
    assert s == s[..n] + s[n..];
    IndexIsFirst(s[..n], CRLF);
    if Index(s[..n], CRLF) == None {
      IndexBehind(s[..n], s[n..], CRLF);
    } else {
      IndexExtends(s[..n], s[n..], CRLF);
    }
  }

  /** A line that leaves no room: cut the stream before the last byte of the line's end. */
  lemma LongLineOverflows(add: Adder, at: Progress, s: Bytes, p: nat) returns (pieces: seq<Bytes>)
    requires Index(s, CRLF) == Some(p) && Min(p + 1 + READ_SIZE, |s|) > HEADER_SIZE
    ensures Concat(pieces) == s && ReadFrom(add, at, [], pieces).answer == Err(ShortBuffer)
  {
    NotYet(s, p);
    var x, y := s[..p + 1], s[p + 1..];
    pieces := [x] + [y];
    ConcatTwo(x, y);
    assert [] + x == x;
    Gather(add, at, [], x, [y]);
  }

  lemma ConcatTwo(x: Bytes, y: Bytes)
    ensures Concat([x] + [y]) == x + y && Concat([x]) == x
  {
    assert ([x] + [y])[1..] == [y] && [y][1..] == [] && [x][1..] == [];
    assert y + [] == y && x + [] == x;
    assert Concat([y]) == y + Concat([]);
    assert Concat([x]) == x + Concat([]);
  }

  /** A line that comes alone is taken, and reading goes on with an empty buffer. */
  lemma OneLineAlone(
      add: Adder, at: Progress, x: Bytes, last: Bytes, p: nat, head: Head, more: seq<Bytes>)
    requires |x| == p + 1 && |last| == 1 && p > 0 && p + 2 <= HEADER_SIZE
    requires Index(x, CRLF) == None && Index(x + last, CRLF) == Some(p)
    requires add(at.head, at.first, (x + last)[..p]) == Ok(head)
    ensures ReadFrom(add, at, [], [x] + ([last] + more)) == ReadFrom(add, Progress(head, false), [], more)
  {
    assert [] + x == x;
    Gather(add, at, [], x, [last] + more);
    LastByte(add, at, x, last, p, head, more);
  }

  lemma LineParts(s: Bytes, p: nat)
    requires Index(s, CRLF) == Some(p) && p + 2 <= |s|
    ensures var x, last := s[..p + 1], [s[p + 1]];
            Index(x, CRLF) == None && Index(x + last, CRLF) == Some(p) && (x + last)[..p] == s[..p]
  {
    NotYet(s, p);
    var x, last := s[..p + 1], [s[p + 1]];
    assert x + last == s[..p + 2];
  }

  lemma LastByte(add: Adder, at: Progress, x: Bytes, last: Bytes, p: nat, head: Head, more: seq<Bytes>)
    requires |x| == p + 1 && |last| == 1 && p > 0 && p + 2 <= HEADER_SIZE && Index(x + last, CRLF) == Some(p)
    requires add(at.head, at.first, (x + last)[..p]) == Ok(head)
    ensures ReadFrom(add, at, x, [last] + more) == ReadFrom(add, Progress(head, false), [], more)
  {
    assert FirstBytes([last] + more, READ_SIZE) == last && AfterBytes([last] + more, READ_SIZE) == more;
    assert (x + last)[p + 2..] == [];
    assert LinesOf(add, at, x + last) == LinesOf(add, Progress(head, false), []);
  }

  lemma ConcatCut(s: Bytes, p: nat, more: seq<Bytes>)
    requires p + 2 <= |s| && Concat(more) == s[p + 2..]
    ensures Concat([s[..p + 1]] + ([[s[p + 1]]] + more)) == s
  {
    var x, last := s[..p + 1], [s[p + 1]];
    ConcatTwo(x, []);
    ConcatTwo(last, []);
    ConcatAppend([last], more);
    ConcatAppend([x], [last] + more);
    assert s == x + (last + s[p + 2..]);
  }

  lemma RoomBehind(add: Adder, at: Progress, s: Bytes, p: nat)
    requires Index(s, CRLF) == Some(p) && Min(p + 1 + READ_SIZE, |s|) <= HEADER_SIZE && !Roomy(add, at, s)
    ensures 0 < p && p + 2 <= |s| && p + 2 <= HEADER_SIZE
    ensures add(at.head, at.first, s[..p]).Ok?
    ensures !Roomy(add, Progress(add(at.head, at.first, s[..p]).value, false), s[p + 2..])
  {
    IndexIsFirst(s, CRLF);
  }

  /** Without room for some line there is a cutting into reads that ends in a short buffer. */
  lemma {:induction false} SomeCuttingOverflows(add: Adder, at: Progress, s: Bytes)
    returns (pieces: seq<Bytes>)
    requires !Roomy(add, at, s)
    ensures Concat(pieces) == s && ReadFrom(add, at, [], pieces).answer == Err(ShortBuffer)
    decreases |s|
  {
    match Index(s, CRLF)
    case None =>
      pieces := [s];
      ConcatTwo(s, []);
      assert [] + s == s && [s] + [] == [s];
      Gather(add, at, [], s, []);
    case Some(p) =>
      if Min(p + 1 + READ_SIZE, |s|) > HEADER_SIZE {
        pieces := LongLineOverflows(add, at, s, p);
      } else {
        RoomBehind(add, at, s, p);
        var head := add(at.head, at.first, s[..p]).value;
        var more := SomeCuttingOverflows(add, Progress(head, false), s[p + 2..]);
        pieces := [s[..p + 1]] + ([[s[p + 1]]] + more);
        LineParts(s, p);
        OneLineAlone(add, at, s[..p + 1], [s[p + 1]], p, head, more);
        ConcatCut(s, p, more);
      }
  }

  /** No answer of a parse is a short buffer. */
  lemma {:induction false} ParseIsNotShort(add: Adder, at: Progress, s: Bytes)
    requires forall head, first, line :: add(head, first, line) != Err(ShortBuffer)
    ensures Parse(add, at, s) != Err(ShortBuffer)
    decreases |s|
  {
    match Index(s, CRLF)
    case None =>
    case Some(p) =>
      ParseLine(add, at, s, p);
      if p > 0 {
        match add(at.head, at.first, s[..p])
        case Err(_) =>
        case Ok(head) => ParseIsNotShort(add, Progress(head, false), s[p + 2..]);
      }
  }

  /**
   * Exactly when ReadResponse does not depend on how the network cuts the stream: there is room for every line
   * the parse gets to. Then it is the line-by-line parse of the whole stream.
   */
  lemma CuttingDoesNotMatter(canon: Bytes -> Bytes, s: Bytes)
    ensures Roomy(Adding(canon), Begin, s) <==>
              forall pieces | Concat(pieces) == s ::
                ReadFrom(Adding(canon), Begin, [], pieces).answer == Parse(Adding(canon), Begin, s)
  {
    var add := Adding(canon);
    if Roomy(add, Begin, s) {
      forall pieces | Concat(pieces) == s
        ensures ReadFrom(add, Begin, [], pieces).answer == Parse(add, Begin, s)
      {
        assert [] + s == s;
        ReadIsParse(add, Begin, [], pieces);
      }
    } else {
      var pieces := SomeCuttingOverflows(add, Begin, s);
      assert forall head, first, line :: add(head, first, line) == AddLine(canon, head, first, line);
      ParseIsNotShort(add, Begin, s);
    }
  }

  /** Every line, also an unfinished last one, has at most 15359 bytes. */
  predicate ShortLines(s: Bytes)
    decreases |s|
  {
    match Index(s, CRLF)
    case None => |s| <= HEADER_SIZE - READ_SIZE - 1
    case Some(p) =>
      IndexIsFirst(s, CRLF);
      p <= HEADER_SIZE - READ_SIZE - 1 && (p > 0 ==> ShortLines(s[p + 2..]))
  }

  lemma {:induction false} ShortLinesFit(add: Adder, at: Progress, s: Bytes)
    requires ShortLines(s)
    ensures Roomy(add, at, s)
    decreases |s|
  {
    match Index(s, CRLF)
    case None =>
    case Some(p) =>
      ParseLine(add, at, s, p);
      if p > 0 {
        match add(at.head, at.first, s[..p])
        case Err(_) =>
        case Ok(head) => ShortLinesFit(add, Progress(head, false), s[p + 2..]);
      }
  }

  /** What a caller may rely on: a head of short lines is read the same however it is cut. */
  lemma ShortLinesAreRead(add: Adder, pieces: seq<Bytes>)
    requires ShortLines(Concat(pieces))
    ensures ReadFrom(add, Begin, [], pieces).answer == Parse(add, Begin, Concat(pieces))
  {
    ShortLinesFit(add, Begin, Concat(pieces));
    assert [] + Concat(pieces) == Concat(pieces);
    ReadIsParse(add, Begin, [], pieces);
  }

  // ---------------------------------------------------------------- the incremental reader, as code

  /** ReadResponse: answer, and what is left in the connection, are those of the function. */
  method ReadResponse(canon: Bytes -> Bytes, conn: ByteStream) returns (r: Result<Head>)
    modifies conn`incoming
    ensures var o := ReadFrom(Adding(canon), Begin, [], old(conn.incoming));
            r == o.answer && conn.incoming == o.unread
  {
    var add := Adding(canon);
    ghost var goal := ReadFrom(add, Begin, [], conn.incoming);
    var bufHeader := new byte[HEADER_SIZE];
    var i: nat := 0;
    var at := Begin;
    assert bufHeader[..0] == [];
    while true
      invariant bufHeader.Length == HEADER_SIZE && i <= HEADER_SIZE
      invariant ReadFrom(add, at, bufHeader[..i], conn.incoming) == goal
      decreases |conn.incoming|, if conn.incoming == [] then 0 else |conn.incoming[0]|
    {
      var answer;
      i, at, answer := ReadOnce(add, conn, bufHeader, i, at);
      if answer.Some? {
        return answer.value;
      }
    }
  }

  /** The body of the loop: one read, and the lines it completes. */
  method ReadOnce(add: Adder, conn: ByteStream, bufHeader: array<byte>, i0: nat, at0: Progress)
    returns (i: nat, at: Progress, answer: Option<Result<Head>>)
    requires i0 <= HEADER_SIZE == bufHeader.Length
    modifies conn`incoming, bufHeader
    ensures var o := ReadFrom(add, at0, old(bufHeader[..i0]), old(conn.incoming));
            match answer
            case Some(r) => r == o.answer && conn.incoming == o.unread
            case None =>
              && i <= HEADER_SIZE && o == ReadFrom(add, at, bufHeader[..i], conn.incoming)
              && old(conn.incoming) != [] && conn.incoming == AfterBytes(old(conn.incoming), READ_SIZE)
  {
    i, at := i0, at0;
    var read := conn.Read(READ_SIZE);
    if read.Err? {
      return i, at, Some(Err(read.error));
    }
    var buf := read.value;
    if i + |buf| > HEADER_SIZE {
      return i, at, Some(Err(ShortBuffer));
    }
    Put(bufHeader, i, buf);
    i, at, answer := TakeLines(add, bufHeader, i + |buf|, at);
  }

  /** The inner loop: take complete lines off the buffer until none is left or the answer is known. */
  method TakeLines(add: Adder, bufHeader: array<byte>, size: nat, at0: Progress)
    returns (i: nat, at: Progress, answer: Option<Result<Head>>)
    requires size <= bufHeader.Length
    modifies bufHeader
    ensures i <= size
    ensures LinesOf(add, at0, old(bufHeader[..size])) ==
              match answer
              case None => More(at, bufHeader[..i])
              case Some(r) => Done(r, bufHeader[..i])
  {
    i, at := size, at0;
    ghost var goal := LinesOf(add, at, bufHeader[..i]);
    while true
      invariant i <= size && LinesOf(add, at, bufHeader[..i]) == goal
      decreases i
    {
      var found := Index(bufHeader[..i], CRLF);
      if found == None {
        return i, at, None;
      }
      var p := found.value;
      IndexIsFirst(bufHeader[..i], CRLF);
      var line := CutLine(bufHeader, i, p);
      i := i - (p + 2);
      if |line| == 0 {
        return i, at, Some(Ok(at.head));
      }
      var added := add(at.head, at.first, line);
      if added.Err? {
        return i, at, Some(Err(added.error));
      }
      at := Progress(added.value, false);
    }
  }

  /** The first p bytes, taken off the front together with the line end. */
  method CutLine(bufHeader: array<byte>, i: nat, p: nat) returns (line: Bytes)
    requires p + 2 <= i <= bufHeader.Length
    modifies bufHeader
    ensures line == old(bufHeader[..i])[..p] && bufHeader[..i - (p + 2)] == old(bufHeader[..i])[p + 2..]
  {
    line := bufHeader[..p];
    assert line == bufHeader[..i][..p];
    DropFront(bufHeader, i, p + 2);
  }
}
