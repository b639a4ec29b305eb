/** The serial bridge's filter for window-size replies: bytes pass through
    unchanged, except complete replies to this process's nonce, which become
    resize calls. */
module ResizeParser {
  import opened Shared

  const BEL: byte := 7
  const SEMICOLON: byte := 59
  const ZERO: byte := 48

  /** The longest reply text still waited for, with its terminator. */
  const REPLY_LIMIT := 24

  predicate Digit(b: byte) {
    ZERO <= b <= ZERO + 9
  }

  /** The position of the first `b` in `data` at or after `from`, or -1. */
  function Find(data: seq<byte>, b: byte, from: nat): (at: int)
    requires from <= |data|
    ensures at == -1 || (from <= at < |data| && data[at] == b)
    ensures forall i :: from <= i < |data| && (at == -1 || i < at) ==> data[i] != b
    decreases |data| - from
  {
    if from == |data| then -1 else if data[from] == b then from else Find(data, b, from + 1)
  }

  /** The number a sequence of digits denotes. */
  function Number(digits: seq<byte>): nat
    requires forall b :: b in digits ==> Digit(b)
  {
    if digits == [] then 0
    else
      var last := digits[|digits| - 1];
      assert Digit(last);
      10 * Number(digits[..|digits| - 1]) + (last - ZERO)
  }

  predicate IsField(text: seq<byte>) {
    1 <= |text| <= 4 && forall b :: b in text ==> Digit(b)
  }

  /** Rows and columns of a reply text `rows;columns`, each of one to four
      digits, if both are sizes a terminal may have. */
  function Size(text: seq<byte>): Option<(nat, nat)> {
    var at := Find(text, SEMICOLON, 0);
    if at < 0 || !IsField(text[..at]) || !IsField(text[at + 1..]) then None
    else
      var rows, cols := Number(text[..at]), Number(text[at + 1..]);
      if 2 <= rows <= 1000 && 2 <= cols <= 2000 then Some((rows, cols)) else None
  }

  // -------------------------------------------------------------- the parser

  /** What becomes of the front of the unread bytes: they are held back, a reply
      of `length` bytes is taken, or one byte passes. */
  datatype Move = Hold | Take(length: nat, rows: nat, cols: nat) | Pass

  function Decide(prefix: seq<byte>, data: seq<byte>): (m: Move)
    requires data != []
    ensures m.Take? ==> |prefix| < m.length <= |data|
  {
    if prefix <= data then
      var end := Find(data, BEL, |prefix|);
      if end < 0 && |data| < |prefix| + REPLY_LIMIT then Hold
      else if end >= 0 && Size(data[|prefix|..end]).Some? then
        var size := Size(data[|prefix|..end]).value;
        Take(end + 1, size.0, size.1)
      else Pass
    else if data <= prefix then Hold
    else Pass
  }

  /** A byte that passed, or a reply that was taken. */
  datatype Event = Passed(b: byte) | Reply(bytes: seq<byte>, rows: nat, cols: nat)

  function EventOf(data: seq<byte>, m: Move): Event
    requires data != [] && !m.Hold? && (m.Take? ==> m.length <= |data|)
  {
    if m.Take? then Reply(data[..m.length], m.rows, m.cols) else Passed(data[0])
  }

  datatype Parsed = Parsed(events: seq<Event>, pending: seq<byte>)

  function Parse(prefix: seq<byte>, data: seq<byte>): Parsed
    decreases |data|
  {
    if data == [] then Parsed([], [])
    else
      match Decide(prefix, data)
      case Hold => Parsed([], data)
      case Take(length, rows, cols) =>
        var rest := Parse(prefix, data[length..]);
        Parsed([Reply(data[..length], rows, cols)] + rest.events, rest.pending)
      case Pass =>
        var rest := Parse(prefix, data[1..]);
        Parsed([Passed(data[0])] + rest.events, rest.pending)
  }

  function Forwarded(e: Event): seq<byte> {
    if e.Passed? then [e.b] else []
  }

  function Resized(e: Event): seq<(nat, nat)> {
    if e.Reply? then [(e.rows, e.cols)] else []
  }

  function Consumed(e: Event): seq<byte> {
    if e.Passed? then [e.b] else e.bytes
  }

  /** The bytes forwarded to the terminal. */
  function Output(events: seq<Event>): seq<byte> {
    if events == [] then [] else Forwarded(events[0]) + Output(events[1..])
  }

  /** The resize calls made. */
  function Calls(events: seq<Event>): seq<(nat, nat)> {
    if events == [] then [] else Resized(events[0]) + Calls(events[1..])
  }

  /** Everything the events consumed, replies put back in place. */
  function Input(events: seq<Event>): seq<byte> {
    if events == [] then [] else Consumed(events[0]) + Input(events[1..])
  }

  /** ResizeParser: `calls` records the resize callbacks. */
  class Parser {
    const prefix: seq<byte>
    var pending: seq<byte>
    var calls: seq<(nat, nat)>

    constructor (prefix: seq<byte>)
      ensures this.prefix == prefix && pending == [] && calls == []
    {
      this.prefix, pending, calls := prefix, [], [];
    }

    method Feed(data: seq<byte>) returns (output: seq<byte>)
      modifies this
      ensures var p := Parse(prefix, old(pending) + data);
        && output == Output(p.events) && pending == p.pending && calls == old(calls) + Calls(p.events)
    {
      var rest := pending + data;
      ghost var whole := Parse(prefix, rest);
      ghost var done: seq<Event> := [];
      pending := [];
      output := [];
      while rest != []
        invariant pending == []
        invariant whole == Parsed(done + Parse(prefix, rest).events, Parse(prefix, rest).pending)
        invariant output == Output(done) && calls == old(calls) + Calls(done)
        decreases |rest|
      {
        var move := Classify(rest);
        if move.Hold? {
          pending := rest;
          assert whole == Parsed(done, rest);
          return;
        }
        ghost var e := EventOf(rest, move);
        ParseStep(prefix, rest);
        ghost var tail := Parse(prefix, rest[if move.Take? then move.length else 1..]);
        Assoc(done, [e], tail.events);
        OutputAppend(done, e);
        CallsAppend(done, e);
        Assoc(old(calls), Calls(done), Resized(e));
        done := done + [e];
        if move.Take? {
          calls := calls + [(move.rows, move.cols)];
          rest := rest[move.length..];
        } else {
          output := output + [rest[0]];
          rest := rest[1..];
        }
      }
      assert whole == Parsed(done, []);
    }

    /** The tests of the loop, in the order they are made. */
    method Classify(rest: seq<byte>) returns (move: Move)
      requires rest != []
      ensures move == Decide(prefix, rest)
    {
      if prefix <= rest {
        var end := Find(rest, BEL, |prefix|);
        if end < 0 && |rest| < |prefix| + REPLY_LIMIT {
          return Hold;
        }
        if end >= 0 {
          var size := Size(rest[|prefix|..end]);
          if size.Some? {
            return Take(end + 1, size.value.0, size.value.1);
          }
        }
      }
      if rest <= prefix {
        return Hold;
      }
      return Pass;
    }

    method Flush() returns (data: seq<byte>)
      modifies this`pending
      ensures data == old(pending) && pending == []
    {
      data, pending := pending, [];
    }
  }

  lemma Assoc<T>(a: seq<T>, b: seq<T>, c: seq<T>)
    ensures (a + b) + c == a + (b + c)
  {
  }

  lemma {:induction false} OutputAppend(events: seq<Event>, e: Event)
    ensures Output(events + [e]) == Output(events) + Forwarded(e)
  {
    if events == [] {
      assert events + [e] == [e];
    } else {
      assert (events + [e])[1..] == events[1..] + [e];
      OutputAppend(events[1..], e);
      Assoc(Forwarded(events[0]), Output(events[1..]), Forwarded(e));
    }
  }

  lemma {:induction false} CallsAppend(events: seq<Event>, e: Event)
    ensures Calls(events + [e]) == Calls(events) + Resized(e)
  {
    if events == [] {
      assert events + [e] == [e];
    } else {
      assert (events + [e])[1..] == events[1..] + [e];
      CallsAppend(events[1..], e);
      Assoc(Resized(events[0]), Calls(events[1..]), Resized(e));
    }
  }

  lemma {:induction false} InputConcat(a: seq<Event>, b: seq<Event>)
    ensures Input(a + b) == Input(a) + Input(b)
  {
    if a == [] {
      assert a + b == b;
    } else {
      assert (a + b)[1..] == a[1..] + b;
      InputConcat(a[1..], b);
    }
  }

  // -------------------------------------------------------------- properties

  /** The first occurrence is the one found. */
  lemma {:induction false} FoundFirst(data: seq<byte>, b: byte, from: nat, at: nat)
    requires from <= at < |data| && data[at] == b
    requires forall i :: from <= i < at ==> data[i] != b
    ensures Find(data, b, from) == at
  {
    var found := Find(data, b, from);
    assert found != -1 && found <= at;
  }

  lemma {:induction false} FindMore(data: seq<byte>, more: seq<byte>, b: byte, from: nat)
    requires from <= |data|
    ensures var at, at' := Find(data, b, from), Find(data + more, b, from);
      if at >= 0 then at' == at else at' == -1 || at' >= |data|
  {
    var all := data + more;
    var at, at' := Find(data, b, from), Find(all, b, from);
    if at >= 0 {
      assert all[at] == b;
    }
    if 0 <= at' < |data| {
      assert data[at'] == b;
    }
  }

  /** More input never changes a decision once it is made. */
  lemma DecisionStable(prefix: seq<byte>, data: seq<byte>, more: seq<byte>)
    requires data != [] && !Decide(prefix, data).Hold?
    ensures Decide(prefix, data + more) == Decide(prefix, data)
  {
    var all := data + more;
    if prefix <= data {
      assert prefix <= all;
      var end, end' := Find(data, BEL, |prefix|), Find(all, BEL, |prefix|);
      FindMore(data, more, BEL, |prefix|);
      if end >= 0 {
        assert all[|prefix|..end] == data[|prefix|..end];
      } else if end' >= 0 {
        LongTextRefused(all[|prefix|..end']);
      }
    } else {
      var i :| 0 <= i < |data| && i < |prefix| && data[i] != prefix[i];
      assert all[i] != prefix[i];
    }
  }

  /** No reply text is longer than two fields and a separator. */
  lemma LongTextRefused(text: seq<byte>)
    ensures |text| > 9 ==> Size(text).None?
  {
  }

  lemma {:induction false} ParseStep(prefix: seq<byte>, data: seq<byte>)
    requires data != [] && !Decide(prefix, data).Hold?
    ensures var m := Decide(prefix, data);
      var rest := Parse(prefix, data[if m.Take? then m.length else 1..]);
      Parse(prefix, data) == Parsed([EventOf(data, m)] + rest.events, rest.pending)
  {
  }

  /** More data changes neither what is taken now nor what is left of it. */
  lemma Taken(a: seq<byte>, b: seq<byte>, m: Move)
    requires a != [] && !m.Hold? && (m.Take? ==> m.length <= |a|)
    ensures (a + b)[Used(m)..] == a[Used(m)..] + b
    ensures EventOf(a + b, m) == EventOf(a, m)
  {
    assert (a + b)[..Used(m)] == a[..Used(m)];
  }

  /** The number of bytes that a move uses up. */
  function Used(m: Move): nat {
    if m.Take? then m.length else 1
  }

  /** The first move is the same with and without the later bytes. */
  lemma ChunkStep(prefix: seq<byte>, a: seq<byte>, b: seq<byte>, m: Move)
    requires a != [] && m == Decide(prefix, a) && !m.Hold?
    ensures var rest := a[Used(m)..];
      && Parse(prefix, a) == Parsed([EventOf(a, m)] + Parse(prefix, rest).events, Parse(prefix, rest).pending)
      && Parse(prefix, a + b)
         == Parsed([EventOf(a, m)] + Parse(prefix, rest + b).events, Parse(prefix, rest + b).pending)
  {
    DecisionStable(prefix, a, b);
    Taken(a, b, m);
    ParseStep(prefix, a);
    ParseStep(prefix, a + b);
  }

  /** Feeding `a` and then `b` gives what feeding both at once gives. */
  lemma {:induction false} ChunkInvariant(prefix: seq<byte>, a: seq<byte>, b: seq<byte>)
    ensures var p := Parse(prefix, a);
      var q := Parse(prefix, p.pending + b);
      Parse(prefix, a + b) == Parsed(p.events + q.events, q.pending)
    decreases |a|
  {
    if a == [] || Decide(prefix, a).Hold? {
      Held(prefix, a);
      assert a == [] ==> a + b == b && [] + b == b;
    } else {
      var m := Decide(prefix, a);
      ChunkStep(prefix, a, b, m);
      ChunkInvariant(prefix, a[Used(m)..], b);
      var rest := Parse(prefix, a[Used(m)..]);
      Assoc([EventOf(a, m)], rest.events, Parse(prefix, rest.pending + b).events);
    }
  }

  lemma Held(prefix: seq<byte>, a: seq<byte>)
    requires a == [] || Decide(prefix, a).Hold?
    ensures Parse(prefix, a) == Parsed([], a)
  {
  }

  /** The reply is one to this nonce, with the size it asks for. */
  ghost predicate Genuine(prefix: seq<byte>, e: Event) {
    e.Reply? ==>
      && |e.bytes| > |prefix| && prefix <= e.bytes && e.bytes[|e.bytes| - 1] == BEL
      && Size(e.bytes[|prefix|..|e.bytes| - 1]) == Some((e.rows, e.cols))
      && 2 <= e.rows <= 1000 && 2 <= e.cols <= 2000
  }

  lemma {:induction false} InputKept(prefix: seq<byte>, data: seq<byte>)
    ensures var p := Parse(prefix, data); Input(p.events) + p.pending == data
    decreases |data|
  {
    if data == [] || Decide(prefix, data).Hold? {
      Held(prefix, data);
    } else {
      var m := Decide(prefix, data);
      ParseStep(prefix, data);
      InputKept(prefix, data[Used(m)..]);
      var tail := Parse(prefix, data[Used(m)..]);
      InputCons(EventOf(data, m), tail.events, tail.pending);
      FirstUsed(data, m);
    }
  }

  lemma FirstUsed(data: seq<byte>, m: Move)
    requires data != [] && !m.Hold? && (m.Take? ==> m.length <= |data|)
    ensures Consumed(EventOf(data, m)) + data[Used(m)..] == data
  {
  }

  lemma {:induction false} InputCons(e: Event, events: seq<Event>, pending: seq<byte>)
    ensures Input([e] + events) + pending == Consumed(e) + (Input(events) + pending)
  {
    assert ([e] + events)[1..] == events;
    assert (Consumed(e) + Input(events)) + pending == Consumed(e) + (Input(events) + pending);
  }

  lemma TakenGenuine(prefix: seq<byte>, data: seq<byte>)
    requires data != [] && !Decide(prefix, data).Hold?
    ensures Genuine(prefix, EventOf(data, Decide(prefix, data)))
  {
    var m := Decide(prefix, data);
    if m.Take? {
      assert data[..m.length][|prefix|..m.length - 1] == data[|prefix|..m.length - 1];
    }
  }

  lemma {:induction false} OnlyGenuine(prefix: seq<byte>, data: seq<byte>)
    ensures var p := Parse(prefix, data);
      (forall e :: e in p.events ==> Genuine(prefix, e)) && |p.pending| < |prefix| + REPLY_LIMIT
    decreases |data|
  {
    if data != [] && !Decide(prefix, data).Hold? {
      var m := Decide(prefix, data);
      var n := if m.Take? then m.length else 1;
      ParseStep(prefix, data);
      OnlyGenuine(prefix, data[n..]);
      TakenGenuine(prefix, data);
    }
  }

  /** Nothing is lost, added or reordered: the bytes passed, with the replies
      taken put back in their places, and the bytes held are the input; only
      genuine replies are taken; and little is held. */
  lemma {:induction false} Conservative(prefix: seq<byte>, data: seq<byte>)
    ensures var p := Parse(prefix, data);
      && Input(p.events) + p.pending == data
      && (forall e :: e in p.events ==> Genuine(prefix, e))
      && |p.pending| < |prefix| + REPLY_LIMIT
  {
    InputKept(prefix, data);
    OnlyGenuine(prefix, data);
  }

  // -------------------------------------------------- sessions and replies

  /** A chunk read from the serial line, or the timeout that flushes. */
  datatype Op = Chunk(data: seq<byte>) | Timeout

  /** What a session of feeds and flushes has passed, taken and held. Flushed
      bytes pass. */
  function Session(prefix: seq<byte>, ops: seq<Op>): Parsed {
    if ops == [] then Parsed([], [])
    else
      var before := Session(prefix, ops[..|ops| - 1]);
      match ops[|ops| - 1]
      case Chunk(data) =>
        var p := Parse(prefix, before.pending + data);
        Parsed(before.events + p.events, p.pending)
      case Timeout => Parsed(before.events + AllPassed(before.pending), [])
  }

  function AllPassed(bytes: seq<byte>): seq<Event> {
    if bytes == [] then [] else [Passed(bytes[0])] + AllPassed(bytes[1..])
  }

  function Received(ops: seq<Op>): seq<byte> {
    if ops == [] then []
    else Received(ops[..|ops| - 1]) + if ops[|ops| - 1].Chunk? then ops[|ops| - 1].data else []
  }

  lemma {:induction false} PassedInput(bytes: seq<byte>)
    ensures Input(AllPassed(bytes)) == bytes
    ensures forall e :: e in AllPassed(bytes) ==> e.Passed?
  {
    if bytes != [] {
      assert AllPassed(bytes)[1..] == AllPassed(bytes[1..]);
      PassedInput(bytes[1..]);
    }
  }

  /** However the line is chunked and flushed, everything received is passed,
      taken as a genuine reply, or held, in order. */
  lemma {:induction false} SessionConservative(prefix: seq<byte>, ops: seq<Op>)
    ensures var p := Session(prefix, ops);
      && Input(p.events) + p.pending == Received(ops)
      && (forall e :: e in p.events ==> Genuine(prefix, e))
      && |p.pending| < |prefix| + REPLY_LIMIT
    decreases |ops|
  {
    if ops != [] {
      var before := Session(prefix, ops[..|ops| - 1]);
      SessionConservative(prefix, ops[..|ops| - 1]);
      match ops[|ops| - 1] {
        case Chunk(data) =>
          var p := Parse(prefix, before.pending + data);
          Conservative(prefix, before.pending + data);
          InputConcat(before.events, p.events);
          Reassociate(Input(before.events), before.pending, data, Input(p.events), p.pending);
        case Timeout =>
          PassedInput(before.pending);
          InputConcat(before.events, AllPassed(before.pending));
      }
    }
  }

  lemma Reassociate(a: seq<byte>, held: seq<byte>, data: seq<byte>, b: seq<byte>, held': seq<byte>)
    requires b + held' == held + data
    ensures (a + b) + held' == (a + held) + data
  {
    assert (a + b) + held' == a + (b + held');
    assert (a + held) + data == a + (held + data);
  }

  /** Without timeouts the chunking does not matter at all. */
  lemma {:induction false} ChunkingInvisible(prefix: seq<byte>, ops: seq<Op>)
    requires forall i :: 0 <= i < |ops| ==> ops[i].Chunk?
    ensures Session(prefix, ops) == Parse(prefix, Received(ops))
    decreases |ops|
  {
    if ops != [] {
      ChunkingInvisible(prefix, ops[..|ops| - 1]);
      ChunkInvariant(prefix, Received(ops[..|ops| - 1]), ops[|ops| - 1].data);
    }
  }

  /** A number below ten thousand in decimal. */
  function Decimal(n: nat): (text: seq<byte>)
    requires n < 10000
    ensures IsField(text) && Number(text) == n
  {
    DecimalUpTo(n, 4)
  }

  predicate HasWidth(n: nat, width: nat) {
    || (width == 1 && n < 10) || (width == 2 && n < 100) || (width == 3 && n < 1000) || (width == 4 && n < 10000)
  }

  lemma Shorter(n: nat, width: nat)
    requires HasWidth(n, width) && n >= 10
    ensures width > 1 && HasWidth(n / 10, width - 1) && n == 10 * (n / 10) + n % 10
  {
  }

  function DecimalUpTo(n: nat, width: nat): (text: seq<byte>)
    requires HasWidth(n, width)
    ensures 1 <= |text| <= width && (forall b :: b in text ==> Digit(b)) && Number(text) == n
  {
    if n < 10 then
      DecimalDigit([], n);
      [ZERO + n]
    else
      Shorter(n, width);
      var high := DecimalUpTo(n / 10, width - 1);
      DecimalDigit(high, n % 10);
      high + [ZERO + n % 10]
  }

  lemma {:induction false} DecimalDigit(high: seq<byte>, d: nat)
    requires d < 10 && forall b :: b in high ==> Digit(b)
    ensures forall b :: b in high + [ZERO + d] ==> Digit(b)
    ensures Number(high + [ZERO + d]) == 10 * Number(high) + d
  {
    assert (high + [ZERO + d])[..|high|] == high;
  }

  /** The reply a terminal of this size sends. */
  function ReplyFor(prefix: seq<byte>, rows: nat, cols: nat): seq<byte>
    requires rows < 10000 && cols < 10000
  {
    prefix + (Decimal(rows) + [SEMICOLON] + Decimal(cols)) + [BEL]
  }

  lemma SizeText(rows: nat, cols: nat)
    requires 2 <= rows <= 1000 && 2 <= cols <= 2000
    ensures var text := Decimal(rows) + [SEMICOLON] + Decimal(cols);
      Size(text) == Some((rows, cols)) && BEL !in text
  {
    var r, c := Decimal(rows), Decimal(cols);
    var text := r + [SEMICOLON] + c;
    assert forall i :: 0 <= i < |r| ==> text[i] == r[i] && Digit(r[i]);
    assert text[|r|] == SEMICOLON;
    assert Find(text, SEMICOLON, 0) == |r|;
    assert text[..|r|] == r && text[|r| + 1..] == c;
    forall b | b in text ensures b != BEL {
      assert b in r || b == SEMICOLON || b in c;
    }
  }

  lemma ReplyDecided(prefix: seq<byte>, rows: nat, cols: nat, rest: seq<byte>)
    requires 2 <= rows <= 1000 && 2 <= cols <= 2000
    ensures var reply := ReplyFor(prefix, rows, cols); Decide(prefix, reply + rest) == Take(|reply|, rows, cols)
  {
    var reply := ReplyFor(prefix, rows, cols);
    var text := Decimal(rows) + [SEMICOLON] + Decimal(cols);
    SizeText(rows, cols);
    Framed(prefix, text, rest);
    TextThenBell(reply + rest, |prefix|, text);
  }

  /** A terminal's reply, at any point the parser has reached, is taken whole as
      a resize to that size; the bytes after it are parsed as ever. */
  lemma {:induction false} ReplyTaken(prefix: seq<byte>, rows: nat, cols: nat, rest: seq<byte>)
    requires 2 <= rows <= 1000 && 2 <= cols <= 2000
    ensures var reply := ReplyFor(prefix, rows, cols);
      var after := Parse(prefix, rest);
      Parse(prefix, reply + rest) == Parsed([Reply(reply, rows, cols)] + after.events, after.pending)
  {
    var reply := ReplyFor(prefix, rows, cols);
    ReplyDecided(prefix, rows, cols, rest);
    assert (reply + rest)[|reply|..] == rest && (reply + rest)[..|reply|] == reply;
    ParseStep(prefix, reply + rest);
  }

  /** Where the parts of a reply and the bytes after it are. */
  lemma Framed(prefix: seq<byte>, text: seq<byte>, rest: seq<byte>)
    ensures var reply := prefix + text + [BEL];
      var data, end := reply + rest, |prefix| + |text|;
      && prefix <= data && data[|prefix|..end] == text && data[end] == BEL
      && data[..end + 1] == reply && data[end + 1..] == rest
  {
    var reply := prefix + text + [BEL];
    assert (reply + rest)[..|reply|] == reply;
    assert reply[..|prefix|] == prefix;
  }

  lemma {:induction false} TextThenBell(data: seq<byte>, from: nat, text: seq<byte>)
    requires from + |text| < |data| && data[from..from + |text|] == text && data[from + |text|] == BEL
    requires BEL !in text
    ensures Find(data, BEL, from) == from + |text|
  {
    forall i | from <= i < from + |text| ensures data[i] != BEL {
      assert data[i] == text[i - from];
    }
    FoundFirst(data, BEL, from, from + |text|);
  }

  // ------------------------------------------------- what is held, taken, passed

  /** Some later input could make the bytes begin with a reply, as far as the
      parser looks: they begin the prefix, or follow it without an end yet. */
  predicate MayBegin(prefix: seq<byte>, data: seq<byte>) {
    data <= prefix || (prefix <= data && |data| - |prefix| < 24 && BEL !in data[|prefix|..])
  }

  /** Bytes are held back exactly while they may begin a reply. */
  lemma HoldsExactly(prefix: seq<byte>, data: seq<byte>)
    requires data != []
    ensures Decide(prefix, data).Hold? <==> MayBegin(prefix, data)
  {
    if prefix <= data {
      var end := Find(data, BEL, |prefix|);
      if end >= 0 {
        assert data[|prefix|..][end - |prefix|] == BEL;
      }
      assert data <= prefix ==> data == prefix;
    }
  }

  /** The text is the size: two fields of one to four digits, and each number is
      one a terminal may have. */
  ghost predicate SizeIs(text: seq<byte>, rows: nat, cols: nat) {
    && 2 <= rows <= 1000 && 2 <= cols <= 2000
    && exists a, b :: text == a + [SEMICOLON] + b && IsField(a) && IsField(b) && Number(a) == rows && Number(b) == cols
  }

  lemma SizeExactly(text: seq<byte>, rows: nat, cols: nat)
    ensures Size(text) == Some((rows, cols)) <==> SizeIs(text, rows, cols)
  {
    var at := Find(text, SEMICOLON, 0);
    if Size(text) == Some((rows, cols)) {
      assert text == text[..at] + [SEMICOLON] + text[at + 1..];
      assert IsField(text[..at]) && IsField(text[at + 1..]);
    }
    if SizeIs(text, rows, cols) {
      var a, b :| text == a + [SEMICOLON] + b && IsField(a) && IsField(b) && Number(a) == rows && Number(b) == cols;
      FieldsFound(text, a, b);
    }
  }

  lemma FieldsFound(text: seq<byte>, a: seq<byte>, b: seq<byte>)
    requires text == a + [SEMICOLON] + b && IsField(a)
    ensures Find(text, SEMICOLON, 0) == |a| && text[..|a|] == a && text[|a| + 1..] == b
  {
    forall i | 0 <= i < |a| ensures text[i] != SEMICOLON {
      assert text[i] == a[i] && a[i] in a && Digit(a[i]);
    }
    FoundFirst(text, SEMICOLON, 0, |a|);
  }

  /** A reply is taken exactly when the bytes begin with one, up to its end; all
      else passes. */
  lemma TakesExactly(prefix: seq<byte>, data: seq<byte>, text: seq<byte>, rest: seq<byte>, rows: nat, cols: nat)
    requires data != [] && BEL !in text && data == prefix + text + [BEL] + rest
    ensures Decide(prefix, data) == Take(|prefix| + |text| + 1, rows, cols) <==> SizeIs(text, rows, cols)
    ensures Decide(prefix, data).Take? || Decide(prefix, data).Pass?
  {
    Framed(prefix, text, rest);
    TextThenBell(data, |prefix|, text);
    SizeExactly(text, rows, cols);
    assert data[|prefix| + |text|] == BEL;
  }

  /** What a parse holds at its end may begin a reply; input that does not touch
      the first byte of the prefix passes at once. */
  lemma {:induction false} HeldMayBegin(prefix: seq<byte>, data: seq<byte>)
    ensures var p := Parse(prefix, data); p.pending == [] || MayBegin(prefix, p.pending)
    ensures prefix != [] && prefix[0] !in data ==> Parse(prefix, data) == Parsed(AllPassed(data), [])
    decreases |data|
  {
    if data != [] {
      HoldsExactly(prefix, data);
      if !Decide(prefix, data).Hold? {
        var m := Decide(prefix, data);
        ParseStep(prefix, data);
        HeldMayBegin(prefix, data[if m.Take? then m.length else 1..]);
        assert prefix != [] && prefix[0] !in data ==> data[0] != prefix[0];
      } else {
        assert prefix != [] ==> data[0] == prefix[0];
      }
    }
  }
}
