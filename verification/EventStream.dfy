/** The framing of live-query responses, and the parser of event streams that section 9.2 of
    the WHATWG HTML Living Standard gives the client. */
module EventStream {
  import opened Wrappers

  // Writing

  /** One response on the wire: `subscribeOnce` ends the stream right after the body. */
  function Frame(body: string, sse: bool, subscribeOnce: bool): string {
    (if sse then "data: " else "") + body + (if subscribeOnce then "" else "\n\n")
  }

  function Framed(bodies: seq<string>, sse: bool, subscribeOnce: bool): string {
    if bodies == [] then "" else Frame(bodies[0], sse, subscribeOnce) + Framed(bodies[1..], sse, subscribeOnce)
  }

  lemma {:induction false} FramedAppend(a: seq<string>, b: seq<string>, sse: bool, subscribeOnce: bool)
    ensures Framed(a + b, sse, subscribeOnce) == Framed(a, sse, subscribeOnce) + Framed(b, sse, subscribeOnce)
  {
    if a == [] {
      assert a + b == b;
    } else {
      assert (a + b)[1..] == a[1..] + b;
      FramedAppend(a[1..], b, sse, subscribeOnce);
    }
  }

  // Reading

  predicate Breaks(c: char) {
    c == '\n' || c == '\r'
  }

  predicate OneLine(s: string) {
    forall c :: c in s ==> !Breaks(c)
  }

  /** The number of characters before the first line break. */
  function LineLength(s: string): (n: nat)
    ensures n <= |s| && OneLine(s[..n]) && (n < |s| ==> Breaks(s[n]))
  {
    if s == [] || Breaks(s[0]) then 0
    else
      var n := LineLength(s[1..]);
      assert s[..n + 1] == [s[0]] + s[1..][..n];
      n + 1
  }

  /** What is left after a line of `n` characters and its LF, CR or CRLF. */
  function AfterLine(s: string, n: nat): string
    requires n < |s|
  {
    if s[n] == '\r' && n + 1 < |s| && s[n + 1] == '\n' then s[n + 2..] else s[n + 1..]
  }

  /** The value of a `data` field, if the line is one: one space after the colon is dropped. */
  function DataOf(line: string): Option<string> {
    if line == "data" then Some("")
    else if "data: " <= line then Some(line[6..])
    else if "data:" <= line then Some(line[5..])
    else None
  }

  /** The data buffer after a line that is not blank.  Other fields do not touch it. */
  function Buffered(data: string, line: string): string {
    if DataOf(line).Some? then data + DataOf(line).value + "\n" else data
  }

  /** The events dispatched, given the data buffer.  What the stream leaves unfinished is
      discarded. */
  function Dispatched(s: string, data: string): seq<string>
    decreases |s|
  {
    var n := LineLength(s);
    if n == |s| then []
    else if n == 0 then
      (if data == "" then [] else [data[..|data| - 1]]) + Dispatched(AfterLine(s, n), "")
    else Dispatched(AfterLine(s, n), Buffered(data, s[..n]))
  }

  const BOM := '\U{FEFF}'

  function Parsed(s: string): seq<string> {
    if s != [] && s[0] == BOM then Dispatched(s[1..], "") else Dispatched(s, "")
  }

  // Round trip

  lemma {:induction false} LineLengthOf(line: string, rest: string)
    requires OneLine(line) && (rest == [] || Breaks(rest[0]))
    ensures LineLength(line + rest) == |line|
  {
    if line == [] {
      assert line + rest == rest;
    } else {
      assert (line + rest)[1..] == line[1..] + rest;
      LineLengthOf(line[1..], rest);
    }
  }

  lemma {:induction false} LineEndsBy(s: string, k: nat)
    requires k < |s| && Breaks(s[k])
    ensures LineLength(s) <= k
  {
    if !Breaks(s[0]) {
      LineEndsBy(s[1..], k - 1);
    }
  }

  lemma LineDispatched(line: string, tail: string)
    requires line != [] && OneLine(line) && tail != [] && Breaks(tail[0])
    ensures Dispatched(line + tail, "") == Dispatched(AfterLine(tail, 0), Buffered("", line))
  {
    var s := line + tail;
    LineLengthOf(line, tail);
    assert s[..|line|] == line;
    assert s[|line| + 1..] == tail[1..];
    if |tail| > 1 {
      assert s[|line| + 2..] == tail[2..];
    }
  }

  lemma DataLine(value: string)
    ensures Buffered("", "data: " + value) == value + "\n"
  {
    assert ("data: " + value)[6..] == value;
    assert ("data: " + value)[4] == ':';
    assert "data: " <= "data: " + value;
  }

  lemma FrameDispatched(body: string, rest: string)
    requires OneLine(body)
    ensures Dispatched(Frame(body, true, false) + rest, "") == [body] + Dispatched(rest, "")
  {
    var line, tail := "data: " + body, "\n\n" + rest;
    assert Frame(body, true, false) + rest == line + tail;
    LineDispatched(line, tail);
    DataLine(body);
    var t := AfterLine(tail, 0);
    assert t == "\n" + rest;
    assert LineLength(t) == 0 && AfterLine(t, 0) == rest;
    assert (body + "\n")[..|body|] == body;
  }

  lemma {:induction false} FramesDispatched(bodies: seq<string>)
    requires forall b :: b in bodies ==> OneLine(b)
    ensures Dispatched(Framed(bodies, true, false), "") == bodies
  {
    if bodies != [] {
      FrameDispatched(bodies[0], Framed(bodies[1..], true, false));
      FramesDispatched(bodies[1..]);
    }
  }

  /** The client reads back exactly the bodies written, when none of them breaks a line. */
  lemma RoundTrip(bodies: seq<string>)
    requires forall b :: b in bodies ==> OneLine(b)
    ensures Parsed(Framed(bodies, true, false)) == bodies
  {
    FramesDispatched(bodies);
    if bodies != [] {
      assert Framed(bodies, true, false)[0] == 'd';
    }
  }

  // Bodies that break a line

  /** A line adds to the buffer at least three characters less than it takes from the stream,
      or leaves the buffer as it is. */
  lemma BufferedGrowth(data: string, line: string)
    requires line != []
    ensures Buffered(data, line) == data || |Buffered(data, line)| + 3 <= |data| + |line|
    ensures data != [] ==> Buffered(data, line) != []
  {
  }

  /** With data in the buffer and a blank line at `k`, an event is dispatched by then: it is no
      longer than the buffer or than what the stream holds up to `k`. */
  lemma {:induction false} FirstEventBound(s: string, data: string, k: nat)
    requires data != [] && k < |s| && s[k] == '\n' && (k == 0 || s[k - 1] == '\n')
    ensures Dispatched(s, data) != []
    ensures var e := Dispatched(s, data)[0]; |e| + 1 <= |data| || |e| + 3 <= |data| + k
    decreases k
  {
    var n := LineLength(s);
    if n > 0 {
      LineEndsBy(s, if k == 0 then 0 else k - 1);
      var t := AfterLine(s, n);
      var line := s[..n];
      BufferedGrowth(data, line);
      FirstEventBound(t, Buffered(data, line), k - (|s| - |t|));
    }
  }

  /** The first line of what begins with the data field of a body that breaks a line. */
  lemma FirstLine(body: string, rest: string)
    requires !OneLine(body)
    ensures var i := LineLength(body);
      && i < |body|
      && Dispatched("data: " + body + rest, "") == Dispatched(AfterLine(body[i..] + rest, 0), body[..i] + "\n")
  {
    var i := LineLength(body);
    assert body[..|body|] == body;
    var line, tail := "data: " + body[..i], body[i..] + rest;
    assert "data: " + body + rest == line + tail;
    LineDispatched(line, tail);
    DataLine(body[..i]);
  }

  /** The first event read from the frame of a body that breaks a line is shorter than the body,
      whatever follows the frame. */
  lemma BrokenFrame(body: string, rest: string)
    requires !OneLine(body)
    ensures var events := Dispatched(Frame(body, true, false) + rest, "");
      events != [] && |events[0]| < |body|
  {
    var i := LineLength(body);
    FirstLine(body, "\n\n" + rest);
    assert Frame(body, true, false) + rest == "data: " + body + ("\n\n" + rest);
    var tail := body[i..] + ("\n\n" + rest);
    var k := |body| - i + 1;
    assert tail[k - 1] == '\n' && tail[k] == '\n';
    var t := AfterLine(tail, 0);
    var skipped := |tail| - |t|;
    assert t == tail[skipped..];
    FirstEventBound(t, body[..i] + "\n", k - skipped);
  }

  /** The client reads back exactly the bodies written, if and only if none of them breaks a line. */
  lemma {:induction false} StreamExact(bodies: seq<string>)
    ensures Parsed(Framed(bodies, true, false)) == bodies <==> forall b :: b in bodies ==> OneLine(b)
  {
    if bodies == [] {
      RoundTrip([]);
    } else {
      var rest := Framed(bodies[1..], true, false);
      assert Framed(bodies, true, false)[0] == 'd';
      if !OneLine(bodies[0]) {
        BrokenFrame(bodies[0], rest);
      } else {
        FrameDispatched(bodies[0], rest);
        StreamExact(bodies[1..]);
        NoByteOrderMark(bodies[1..]);
      }
    }
  }

  lemma NoByteOrderMark(bodies: seq<string>)
    ensures Parsed(Framed(bodies, true, false)) == Dispatched(Framed(bodies, true, false), "")
  {
  }

  /** No event is longer than what the buffer and the stream held. */
  lemma {:induction false} EventBound(s: string, data: string, e: string)
    requires e in Dispatched(s, data)
    ensures |e| + 2 <= |data| + |s|
    decreases |s|
  {
    var n := LineLength(s);
    if n > 0 {
      BufferedGrowth(data, s[..n]);
      EventBound(AfterLine(s, n), Buffered(data, s[..n]), e);
    } else if data == "" || e != data[..|data| - 1] {
      EventBound(AfterLine(s, n), "", e);
    }
  }

  /** With `wg_subscribe_once` the only frame has no blank line after it, so a client that follows
      the standard never reads the body back; one that breaks no line it discards entirely. */
  lemma SubscribeOnceIsDiscarded(body: string)
    ensures body !in Parsed(Framed([body], true, true))
    ensures OneLine(body) ==> Parsed(Framed([body], true, true)) == []
  {
    var s := "data: " + body;
    assert Framed([body], true, true) == s && s + "" == s;
    if OneLine(body) {
      LineLengthOf(s, "");
    } else {
      FirstLine(body, "");
      var i := LineLength(body);
      assert s == "data: " + body + "";
      if body in Dispatched(s, "") {
        EventBound(AfterLine(body[i..] + "", 0), body[..i] + "\n", body);
      }
    }
  }

  // Without wg_sse

  predicate BlankLineAt(s: string, i: nat) {
    i + 1 < |s| && s[i] == '\n' && s[i + 1] == '\n'
  }

  /** Where the first blank line begins, or the length. */
  function FirstBlankLine(s: string): (n: nat)
    ensures n == |s| || BlankLineAt(s, n)
    ensures forall i :: 0 <= i < n ==> !BlankLineAt(s, i)
  {
    if s == [] || BlankLineAt(s, 0) then 0
    else
      var n := FirstBlankLine(s[1..]);
      assert forall i :: 1 <= i < n + 1 ==> BlankLineAt(s, i) == BlankLineAt(s[1..], i - 1);
      n + 1
  }

  /** What a client reads that takes each blank line as the end of a body. */
  function Chunks(s: string): seq<string>
    decreases |s|
  {
    var n := FirstBlankLine(s);
    if n == |s| then [] else [s[..n]] + Chunks(s[n + 2..])
  }

  /** No blank line, and no line break at the end. */
  predicate Unbroken(body: string) {
    forall i :: 0 <= i < |body| && body[i] == '\n' ==> i + 1 < |body| && body[i + 1] != '\n'
  }

  lemma UnbrokenChunk(body: string, rest: string)
    requires Unbroken(body)
    ensures Chunks(body + ("\n\n" + rest)) == [body] + Chunks(rest)
  {
    var s := body + ("\n\n" + rest);
    assert BlankLineAt(s, |body|);
    forall i | 0 <= i < |body| ensures !BlankLineAt(s, i) {
      assert s[i] == body[i] && (i + 1 < |body| ==> s[i + 1] == body[i + 1]);
    }
    assert s[..|body|] == body && s[|body| + 2..] == rest;
  }

  lemma BrokenChunk(body: string, rest: string)
    requires !Unbroken(body)
    ensures var chunks := Chunks(body + ("\n\n" + rest)); chunks != [] && |chunks[0]| < |body|
  {
    var s := body + ("\n\n" + rest);
    var i :| 0 <= i < |body| && body[i] == '\n' && !(i + 1 < |body| && body[i + 1] != '\n');
    assert s[i] == body[i] && (i + 1 < |body| ==> s[i + 1] == body[i + 1]);
    assert BlankLineAt(s, i);
  }

  /** A client that splits at blank lines reads back exactly the bodies written without `wg_sse`,
      if and only if no body has a blank line or ends with a line break. */
  lemma {:induction false} PlainStreamExact(bodies: seq<string>)
    ensures Chunks(Framed(bodies, false, false)) == bodies <==> forall b :: b in bodies ==> Unbroken(b)
  {
    if bodies != [] {
      var rest := Framed(bodies[1..], false, false);
      assert Framed(bodies, false, false) == bodies[0] + ("\n\n" + rest);
      if Unbroken(bodies[0]) {
        UnbrokenChunk(bodies[0], rest);
        PlainStreamExact(bodies[1..]);
      } else {
        BrokenChunk(bodies[0], rest);
      }
    }
  }
}
