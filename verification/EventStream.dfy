/**
 The resumable event-stream client, `subscribeRunEvents` in
 apps/web/src/lib/api.ts, together with the server loop it talks to,
 `stream_run_events` in services/api/app/routers/runs.py.

 The client cuts the incoming text into frames at blank lines, remembers the
 last id it saw, and sends that id when it has to connect again. The results:
 how the network cuts the text does not matter, and however often the
 connection breaks, every event is delivered once, in order, without gaps.
 */
module EventStream {
  import opened Common
  import opened Text

  // ------------------------------------------------------ cutting into frames

  /** No blank line, that is, no two newlines in a row. */
  predicate GapFree(s: string) {
    forall i :: 0 <= i < |s| - 1 ==> !(s[i] == '\n' && s[i + 1] == '\n')
  }

  /** Where the first "\n\n" starts, or the length of `s` when there is none. */
  function FindGap(s: string): (i: nat)
    ensures i == |s| || i + 2 <= |s|
  {
    if |s| < 2 then |s|
    else if s[0] == '\n' && s[1] == '\n' then 0
    else 1 + FindGap(s[1..])
  }

  /** The pieces between successive "\n\n", leftmost first and never overlapping. */
  function SplitFrames(s: string): (pieces: seq<string>)
    ensures |pieces| > 0
    decreases |s|
  {
    var i := FindGap(s);
    if i == |s| then [s] else [s[..i]] + SplitFrames(s[i + 2..])
  }

  /** All pieces but the last, and the last. */
  function Front<T>(s: seq<T>): seq<T>
    requires |s| > 0
  {
    s[..|s| - 1]
  }

  function Last<T>(s: seq<T>): T
    requires |s| > 0
  {
    s[|s| - 1]
  }

  lemma FrontAppend<T>(a: seq<T>, b: seq<T>)
    requires |b| > 0
    ensures Front(a + b) == a + Front(b) && Last(a + b) == Last(b)
  {
  }

  lemma {:induction false} FindGapIsFirst(s: string)
    ensures FindGap(s) == |s| ==> GapFree(s)
    ensures FindGap(s) < |s| ==> s[FindGap(s)] == s[FindGap(s) + 1] == '\n' && GapFree(s[..FindGap(s) + 1])
  {
    if |s| >= 2 && !(s[0] == '\n' && s[1] == '\n') {
      FindGapIsFirst(s[1..]);
      var g := FindGap(s[1..]);
      if g == |s[1..]| {
        forall i | 0 <= i < |s| - 1 ensures !(s[i] == '\n' && s[i + 1] == '\n') {
          if i > 0 {
            assert s[1..][i - 1] == s[i];
          }
        }
      } else {
        var t := s[..g + 2];
        forall i | 0 <= i < |t| - 1 ensures !(t[i] == '\n' && t[i + 1] == '\n') {
          if i > 0 {
            assert s[1..][..g + 1][i - 1] == t[i];
            assert s[1..][..g + 1][i] == t[i + 1];
          }
        }
      }
    }
  }

  lemma GapBefore(s: string, j: nat, i: nat)
    requires i < |s| && j + 2 <= |s| && s[j] == s[j + 1] == '\n' && GapFree(s[..i + 1])
    ensures i <= j
  {
  }

  /** The first gap is the only place a gap-free start can be followed by one. */
  lemma FirstGapUnique(s: string, i: nat)
    requires i + 2 <= |s| && s[i] == s[i + 1] == '\n' && GapFree(s[..i + 1])
    ensures FindGap(s) == i
  {
    FindGapIsFirst(s);
    var g := FindGap(s);
    if g == |s| {
      assert false;
    } else {
      GapBefore(s, g, i);
      GapBefore(s, i, g);
    }
  }

  /** Pieces put back together with "\n\n" between them. */
  function JoinFrames(pieces: seq<string>): string
    requires |pieces| > 0
  {
    if |pieces| == 1 then pieces[0] else pieces[0] + "\n\n" + JoinFrames(pieces[1..])
  }

  /** Every separator stands as far left as it can, and none is left over. */
  predicate LeftmostPieces(pieces: seq<string>) {
    && |pieces| > 0
    && (forall k :: 0 <= k < |pieces| - 1 ==> GapFree(pieces[k] + "\n"))
    && GapFree(pieces[|pieces| - 1])
  }

  lemma {:induction false} SplitJoins(s: string)
    ensures JoinFrames(SplitFrames(s)) == s && LeftmostPieces(SplitFrames(s))
    decreases |s|
  {
    FindGapIsFirst(s);
    var i := FindGap(s);
    if i < |s| {
      var rest := SplitFrames(s[i + 2..]);
      SplitJoins(s[i + 2..]);
      var pieces := [s[..i]] + rest;
      assert pieces[1..] == rest;
      assert s == s[..i] + "\n\n" + s[i + 2..];
      assert s[..i + 1] == s[..i] + "\n";
      forall k | 0 <= k < |pieces| - 1 ensures GapFree(pieces[k] + "\n") {
        if k > 0 {
          assert pieces[k] == rest[k - 1];
        }
      }
    }
  }

  lemma SplitOne(frame: string, rest: string)
    requires GapFree(frame + "\n")
    ensures SplitFrames(frame + "\n\n" + rest) == [frame] + SplitFrames(rest)
  {
    var s := frame + "\n\n" + rest;
    assert s[..|frame| + 1] == frame + "\n";
    FirstGapUnique(s, |frame|);
    assert s[..|frame|] == frame && s[|frame| + 2..] == rest;
  }

  lemma {:induction false} SplitOfJoin(pieces: seq<string>)
    requires LeftmostPieces(pieces)
    ensures SplitFrames(JoinFrames(pieces)) == pieces
  {
    if |pieces| == 1 {
      var s := pieces[0];
      FindGapIsFirst(s);
      assert pieces == [s];
    } else {
      SplitOfJoin(pieces[1..]);
      SplitOne(pieces[0], JoinFrames(pieces[1..]));
      assert pieces == [pieces[0]] + pieces[1..];
    }
  }

  /** The split is the one leftmost way to write the text as pieces joined by blank lines. */
  lemma SplitIsLeftmost(s: string, pieces: seq<string>)
    ensures pieces == SplitFrames(s) <==> LeftmostPieces(pieces) && JoinFrames(pieces) == s
  {
    SplitJoins(s);
    if LeftmostPieces(pieces) {
      SplitOfJoin(pieces);
    }
  }

  /** Text that arrives later only affects the last piece of what came before. */
  lemma {:induction false} SplitAppend(a: string, b: string)
    ensures SplitFrames(a + b) == Front(SplitFrames(a)) + SplitFrames(Last(SplitFrames(a)) + b)
    decreases |a|
  {
    hide FindGap, GapFree;
    FindGapIsFirst(a);
    var i := FindGap(a);
    if i == |a| {
      assert SplitFrames(a) == [a];
      assert Front(SplitFrames(a)) == [];
    } else {
      var rest := a[i + 2..];
      SplitAppend(rest, b);
      assert a + b == a[..i] + "\n\n" + (rest + b);
      assert a[..i + 1] == a[..i] + "\n";
      SplitOne(a[..i], rest + b);
      FrontAppend([a[..i]], SplitFrames(rest));
      assert [a[..i]] + (Front(SplitFrames(rest)) + SplitFrames(Last(SplitFrames(rest)) + b))
          == ([a[..i]] + Front(SplitFrames(rest))) + SplitFrames(Last(SplitFrames(rest)) + b);
    }
  }

  // -------------------------------------------------------------- one frame

  predicate NewlineFree(s: string) {
    '\n' !in s
  }

  /** The lines of a frame. */
  function SplitLines(s: string): (lines: seq<string>)
    ensures |lines| > 0
  {
    if s == [] then [[]]
    else
      var rest := SplitLines(s[1..]);
      if s[0] == '\n' then [[]] + rest else [[s[0]] + rest[0]] + rest[1..]
  }

  function JoinLines(lines: seq<string>): string {
    if lines == [] then []
    else if |lines| == 1 then lines[0]
    else lines[0] + "\n" + JoinLines(lines[1..])
  }

  /** What follows "id: " on the first line that starts so. */
  function FirstId(lines: seq<string>): Option<string> {
    if lines == [] then None
    else if "id: " <= lines[0] then Some(lines[0][4..])
    else FirstId(lines[1..])
  }

  /** What follows "data: " on each line that starts so. */
  function DataLines(lines: seq<string>): seq<string> {
    if lines == [] then []
    else if "data: " <= lines[0] then [lines[0][6..]] + DataLines(lines[1..])
    else DataLines(lines[1..])
  }

  /** What the client remembers, and the data it has handed to its callback. */
  datatype Client = Client(lastEventId: string, delivered: seq<string>)

  const FRESH := Client("", [])

  /** The effect of one frame: remember its id, deliver its data; empty ones count as absent. */
  function Dispatch(client: Client, frame: string): Client {
    var lines := SplitLines(frame);
    var id := FirstId(lines);
    var data := JoinLines(DataLines(lines));
    Client(
      if id.Some? && id.value != "" then id.value else client.lastEventId,
      if data != "" then client.delivered + [data] else client.delivered)
  }

  function DispatchAll(client: Client, frames: seq<string>): Client
    decreases |frames|
  {
    if frames == [] then client else DispatchAll(Dispatch(client, frames[0]), frames[1..])
  }

  lemma {:induction false} DispatchAppend(client: Client, a: seq<string>, b: seq<string>)
    ensures DispatchAll(client, a + b) == DispatchAll(DispatchAll(client, a), b)
    decreases |a|
  {
    if a == [] {
      assert a + b == b;
    } else {
      assert (a + b)[1..] == a[1..] + b;
      DispatchAppend(Dispatch(client, a[0]), a[1..], b);
    }
  }

  // ---------------------------------------------------------- one connection

  /** Reading chunk after chunk: complete frames are dispatched, the rest is kept. */
  function ReadAll(client: Client, buffer: string, chunks: seq<string>): (Client, string)
    decreases |chunks|
  {
    if chunks == [] then (client, buffer)
    else
      var pieces := SplitFrames(buffer + chunks[0]);
      ReadAll(DispatchAll(client, Front(pieces)), Last(pieces), chunks[1..])
  }

  /** Dispatching the complete frames of `a + b` is dispatching those of `a`, then what `b` completes. */
  lemma SplitInTwo(client: Client, a: string, b: string)
    ensures Last(SplitFrames(a + b)) == Last(SplitFrames(Last(SplitFrames(a)) + b))
    ensures DispatchAll(client, Front(SplitFrames(a + b)))
            == DispatchAll(DispatchAll(client, Front(SplitFrames(a))),
                           Front(SplitFrames(Last(SplitFrames(a)) + b)))
  {
    var first := Front(SplitFrames(a));
    var more := SplitFrames(Last(SplitFrames(a)) + b);
    SplitAppend(a, b);
    FrontAppend(first, more);
    DispatchAppend(client, first, Front(more));
  }

  /** The state after a whole text: its complete frames dispatched, its last piece in the buffer. */
  function AfterText(client: Client, text: string): (Client, string) {
    var pieces := SplitFrames(text);
    (DispatchAll(client, Front(pieces)), Last(pieces))
  }

  lemma NoGapNoFrame(client: Client, text: string)
    requires GapFree(text)
    ensures AfterText(client, text) == (client, text)
  {
    SplitOfJoin([text]);
  }

  lemma AfterTextInTwo(client: Client, a: string, b: string)
    ensures var half := AfterText(client, a); AfterText(client, a + b) == AfterText(half.0, half.1 + b)
  {
    SplitInTwo(client, a, b);
  }

  /**
   However the network cuts the text, the client has seen exactly the frames of
   the whole text, all but the last piece, and the buffer holds that piece.
   */
  lemma {:induction false} CutsDoNotMatter(client: Client, buffer: string, chunks: seq<string>, text: string)
    requires GapFree(buffer) && text == buffer + Flatten(chunks)
    ensures ReadAll(client, buffer, chunks) == AfterText(client, text)
    decreases |chunks|
  {
    hide SplitFrames, DispatchAll, GapFree;
    if chunks == [] {
      assert text == buffer;
      NoGapNoFrame(client, buffer);
    } else {
      var rest := Flatten(chunks[1..]);
      var half := AfterText(client, buffer + chunks[0]);
      SplitJoins(buffer + chunks[0]);
      assert text == buffer + chunks[0] + rest;
      AfterTextInTwo(client, buffer + chunks[0], rest);
      CutsDoNotMatter(half.0, half.1, chunks[1..], half.1 + rest);
    }
  }

  // -------------------------------------------------------------- the client

  /**
   One answer to a request for the stream: none or an error status; chunks of
   text until it ends; or chunks until reading fails.
   */
  datatype Connection = Refused | Body(chunks: seq<string>) | Dropped(chunks: seq<string>)

  datatype Outcome = Outcome(client: Client, requests: seq<Option<string>>, failed: bool)

  /** The Last-Event-ID header of the next request. */
  function Header(client: Client): Option<string> {
    if client.lastEventId == "" then None else Some(client.lastEventId)
  }

  /** One connection after another; only a response that ends is followed by another request. */
  function Session(client: Client, connections: seq<Connection>): Outcome
    decreases |connections|
  {
    if connections == [] then Outcome(client, [], false)
    else
      match connections[0]
      case Refused => Outcome(client, [Header(client)], true)
      case Dropped(chunks) => Outcome(ReadAll(client, "", chunks).0, [Header(client)], true)
      case Body(chunks) =>
        var rest := Session(ReadAll(client, "", chunks).0, connections[1..]);
        Outcome(rest.client, [Header(client)] + rest.requests, rest.failed)
  }

  lemma SessionStep(client: Client, connections: seq<Connection>, i: nat)
    requires i < |connections|
    ensures connections[i].Refused? ==>
              Session(client, connections[i..]) == Outcome(client, [Header(client)], true)
    ensures connections[i].Dropped? ==>
              Session(client, connections[i..])
              == Outcome(ReadAll(client, "", connections[i].chunks).0, [Header(client)], true)
    ensures connections[i].Body? ==>
              var rest := Session(ReadAll(client, "", connections[i].chunks).0, connections[i + 1..]);
              Session(client, connections[i..]) == Outcome(rest.client, [Header(client)] + rest.requests, rest.failed)
  {
    hide ReadAll;
    assert connections[i..][1..] == connections[i + 1..];
  }

  /** The client asks again exactly as long as responses end; the first that does not ends the subscription. */
  lemma {:induction false} RequestsMade(client: Client, connections: seq<Connection>, n: nat)
    requires n <= |connections| && forall i :: 0 <= i < n ==> connections[i].Body?
    requires n < |connections| ==> !connections[n].Body?
    ensures var outcome := Session(client, connections);
            && outcome.failed == (n < |connections|)
            && |outcome.requests| == (if n < |connections| then n + 1 else n)
    decreases |connections|
  {
    hide ReadAll;
    if n > 0 {
      RequestsMade(ReadAll(client, "", connections[0].chunks).0, connections[1..], n - 1);
    }
  }

  /** Each request names the id that the connections before it left, and none as long as there is none. */
  lemma {:induction false} RequestsResume(client: Client, connections: seq<Connection>, i: nat)
    requires i < |Session(client, connections).requests|
    ensures i < |connections|
    ensures var lastEventId := Session(client, connections[..i]).client.lastEventId;
            Session(client, connections).requests[i] == if lastEventId == "" then None else Some(lastEventId)
    decreases |connections|
  {
    hide ReadAll;
    if i > 0 {
      var next := ReadAll(client, "", connections[0].chunks).0;
      RequestsResume(next, connections[1..], i - 1);
      assert connections[..i][1..] == connections[1..][..i - 1];
    }
  }

  /**
   The client's loops. `connections` is what the network answers until the
   subscriber aborts; an abort between two chunks is a last response with fewer
   chunks. A read that fails is not caught, so it ends the subscription.
   */
  method SubscribeRunEvents(connections: seq<Connection>)
    returns (lastEventId: string, delivered: seq<string>, requests: seq<Option<string>>, failed: bool)
    ensures Outcome(Client(lastEventId, delivered), requests, failed) == Session(FRESH, connections)
  {
    hide *;
    lastEventId, delivered, requests, failed := "", [], [], false;
    var i := 0;
    ghost var rest := Session(FRESH, connections);
    SessionStart(connections);
    while i < |connections|
      invariant i <= |connections| && !failed
      invariant rest == Session(Client(lastEventId, delivered), connections[i..])
      invariant Outcome(rest.client, requests + rest.requests, rest.failed) == Session(FRESH, connections)
    {
      ghost var sent := requests;
      SessionStep(Client(lastEventId, delivered), connections, i);
      var header := Header(Client(lastEventId, delivered));
      requests := requests + [header];
      if connections[i].Refused? {
        failed := true;
        return;
      }
      lastEventId, delivered := ReadBody(lastEventId, delivered, connections[i].chunks);
      if connections[i].Dropped? {
        failed := true;
        return;
      }
      i := i + 1;
      rest := Session(Client(lastEventId, delivered), connections[i..]);
      assert sent + ([header] + rest.requests) == requests + rest.requests;
    }
    SessionEnd(Client(lastEventId, delivered), connections);
  }

  lemma SessionStart(connections: seq<Connection>)
    ensures FRESH == Client("", []) && Session(FRESH, connections[0..]) == Session(FRESH, connections)
    ensures var rest := Session(FRESH, connections);
            Outcome(rest.client, [] + rest.requests, rest.failed) == rest
  {
    assert connections[0..] == connections;
    var rest := Session(FRESH, connections);
    assert [] + rest.requests == rest.requests;
  }

  lemma SessionEnd(client: Client, connections: seq<Connection>)
    ensures Session(client, connections[|connections|..]) == Outcome(client, [], false)
  {
  }

  /** The inner loops of the client: read, cut, dispatch. */
  method ReadBody(lastId: string, before: seq<string>, chunks: seq<string>)
    returns (lastEventId: string, delivered: seq<string>)
    ensures Client(lastEventId, delivered) == ReadAll(Client(lastId, before), "", chunks).0
  {
    lastEventId, delivered := lastId, before;
    var buffer := "";
    var j := 0;
    while j < |chunks|
      invariant j <= |chunks|
      invariant ReadAll(Client(lastEventId, delivered), buffer, chunks[j..])
                == ReadAll(Client(lastId, before), "", chunks)
    {
      buffer := buffer + chunks[j];
      var frames := SplitFrames(buffer);
      buffer, frames := Last(frames), Front(frames);
      ghost var target := DispatchAll(Client(lastEventId, delivered), frames);
      var k := 0;
      while k < |frames|
        invariant k <= |frames|
        invariant DispatchAll(Client(lastEventId, delivered), frames[k..]) == target
      {
        var lines := SplitLines(frames[k]);
        var id := FirstId(lines);
        var data := JoinLines(DataLines(lines));
        if id.Some? && id.value != "" {
          lastEventId := id.value;
        }
        if data != "" {
          delivered := delivered + [data];
        }
        k := k + 1;
      }
      j := j + 1;
    }
  }

  // -------------------------------------------------------------- the server

  /** A stored case event; `data` is its JSON text. */
  datatype Event = Event(sequence: nat, eventType: string, data: string)

  /**
   The events of a case: sequence numbers count upwards from at least 1, and
   neither the type nor the JSON text (which is never empty) holds a newline.
   */
  ghost predicate WellFormedLog(log: seq<Event>) {
    && (forall i, j :: 0 <= i < j < |log| ==> log[i].sequence < log[j].sequence)
    && (forall i :: 0 <= i < |log| ==>
          log[i].sequence >= 1 && NewlineFree(log[i].eventType) && NewlineFree(log[i].data) && log[i].data != "")
  }

  function EventFrame(e: Event): string {
    ("id: " + Decimal(e.sequence)) + ("\n" + ("event: " + e.eventType)) + ("\n" + ("data: " + e.data))
  }

  const KEEPALIVE := ": keepalive"

  /** The position from which a request resumes. */
  function Cursor(header: Option<string>): nat {
    if header.Some? && header.value != "" && forall i :: 0 <= i < |header.value| ==> IsDigit(header.value[i])
    then Value(header.value)
    else 0
  }

  /** The events numbered above the cursor. */
  function After(log: seq<Event>, cursor: nat): seq<Event> {
    if log == [] then []
    else if log[0].sequence > cursor then [log[0]] + After(log[1..], cursor)
    else After(log[1..], cursor)
  }

  const BATCH := 100

  /** One poll, at a moment when the first `visible` events are committed. */
  function Batch(log: seq<Event>, cursor: nat, visible: nat): seq<Event> {
    var found := After(if visible <= |log| then log[..visible] else log, cursor);
    if |found| <= BATCH then found else found[..BATCH]
  }

  function EventFrames(events: seq<Event>): seq<string> {
    if events == [] then [] else [EventFrame(events[0])] + EventFrames(events[1..])
  }

  /** What the server sends, poll after poll: the new events, or a keepalive when there are none. */
  function ServerFrames(log: seq<Event>, cursor: nat, polls: seq<nat>): seq<string>
    decreases |polls|
  {
    if polls == [] then []
    else
      var batch := Batch(log, cursor, polls[0]);
      if batch == [] then [KEEPALIVE] + ServerFrames(log, cursor, polls[1..])
      else EventFrames(batch) + ServerFrames(log, batch[|batch| - 1].sequence, polls[1..])
  }

  /** Frames on the wire, each closed by a blank line. */
  function Wire(frames: seq<string>): string {
    if frames == [] then [] else frames[0] + "\n\n" + Wire(frames[1..])
  }

  /** Text the server may have sent before the connection ended, at any character. */
  ghost predicate HonestText(log: seq<Event>, header: Option<string>, text: string) {
    exists polls :: text <= Wire(ServerFrames(log, Cursor(header), polls))
  }

  /** Every response is one the server could have given to the request the client made. */
  ghost predicate HonestRun(log: seq<Event>, client: Client, connections: seq<Connection>)
    decreases |connections|
  {
    connections != [] && !connections[0].Refused? ==>
      && HonestText(log, Header(client), Flatten(connections[0].chunks))
      && (connections[0].Body? ==>
            HonestRun(log, ReadAll(client, "", connections[0].chunks).0, connections[1..]))
  }

  // ------------------------------------------------- reading a server's frame

  lemma {:induction false} LinesOfNewlineFree(s: string)
    requires NewlineFree(s)
    ensures SplitLines(s) == [s]
  {
    if s != [] {
      assert s[0] in s && s == [s[0]] + s[1..];
      LinesOfNewlineFree(s[1..]);
    }
  }

  lemma {:induction false} LinesCons(line: string, rest: string)
    requires NewlineFree(line)
    ensures SplitLines(line + ("\n" + rest)) == [line] + SplitLines(rest)
  {
    var s := line + ("\n" + rest);
    if line == [] {
      assert s == "\n" + rest;
      assert s[1..] == rest;
    } else {
      assert line[0] in line && line == [line[0]] + line[1..];
      LinesCons(line[1..], rest);
      assert s[1..] == line[1..] + ("\n" + rest);
    }
  }

  lemma {:induction false} JoinOfSplitLines(s: string)
    ensures JoinLines(SplitLines(s)) == s
    ensures forall i :: 0 <= i < |SplitLines(s)| ==> NewlineFree(SplitLines(s)[i])
  {
    if s != [] {
      JoinOfSplitLines(s[1..]);
      var rest := SplitLines(s[1..]);
      if s[0] == '\n' {
        assert ([[]] + rest)[1..] == rest;
      } else {
        JoinLinesFirst(s[0], rest);
      }
      assert s == [s[0]] + s[1..];
    }
  }

  lemma JoinLinesFirst(c: char, lines: seq<string>)
    requires |lines| > 0
    ensures JoinLines([[c] + lines[0]] + lines[1..]) == [c] + JoinLines(lines)
  {
    var longer := [[c] + lines[0]] + lines[1..];
    assert longer[1..] == lines[1..];
    if |lines| > 1 {
      assert [c] + (lines[0] + "\n" + JoinLines(lines[1..])) == [c] + lines[0] + "\n" + JoinLines(lines[1..]);
    }
  }

  lemma {:induction false} SplitOfJoinLines(lines: seq<string>)
    requires |lines| > 0 && forall i :: 0 <= i < |lines| ==> NewlineFree(lines[i])
    ensures SplitLines(JoinLines(lines)) == lines
  {
    if |lines| == 1 {
      LinesOfNewlineFree(lines[0]);
    } else {
      SplitOfJoinLines(lines[1..]);
      LinesCons(lines[0], JoinLines(lines[1..]));
      assert lines[0] + "\n" + JoinLines(lines[1..]) == lines[0] + ("\n" + JoinLines(lines[1..]));
    }
  }

  /** One data line for each line. */
  function AsData(lines: seq<string>): seq<string> {
    if lines == [] then [] else ["data: " + lines[0]] + AsData(lines[1..])
  }

  lemma {:induction false} DataOfAsData(lines: seq<string>)
    requires forall i :: 0 <= i < |lines| ==> NewlineFree(lines[i])
    ensures |AsData(lines)| == |lines| && forall i :: 0 <= i < |lines| ==> NewlineFree(AsData(lines)[i])
    ensures DataLines(AsData(lines)) == lines && FirstId(AsData(lines)) == None
  {
    if lines != [] {
      var first := "data: " + lines[0];
      DataOfAsData(lines[1..]);
      assert AsData(lines)[0] == first && AsData(lines)[1..] == AsData(lines[1..]);
      assert first[0] == 'd' && first[6..] == lines[0];
    }
  }

  /** Text sent as data, however many lines it has, is delivered as it was, and changes nothing else. */
  lemma DataRoundTrip(client: Client, text: string)
    ensures Dispatch(client, JoinLines(AsData(SplitLines(text))))
            == client.(delivered := if text == "" then client.delivered else client.delivered + [text])
  {
    JoinOfSplitLines(text);
    DataOfAsData(SplitLines(text));
    SplitOfJoinLines(AsData(SplitLines(text)));
  }

  /** Each further line adds to a frame's data what follows "data: " on it, and nothing if it starts otherwise. */
  lemma {:induction false} DataLinesGrow(lines: seq<string>, line: string)
    ensures DataLines(lines + [line]) == DataLines(lines) + (if "data: " <= line then [line[6..]] else [])
  {
    if lines == [] {
      assert [line][1..] == [];
    } else {
      assert (lines + [line])[1..] == lines[1..] + [line];
      DataLinesGrow(lines[1..], line);
    }
  }

  /**
   What a frame of any lines does: the first id line is remembered, unless it is
   empty or there is none, and the data lines are delivered as one text, unless
   that is empty.
   */
  lemma FrameIsRead(client: Client, lines: seq<string>, i: nat)
    requires lines != [] && forall k :: 0 <= k < |lines| ==> NewlineFree(lines[k])
    requires i <= |lines| && forall k :: 0 <= k < i ==> !("id: " <= lines[k])
    requires i < |lines| ==> "id: " <= lines[i]
    ensures var after := Dispatch(client, JoinLines(lines));
            && after.lastEventId
               == (if i < |lines| && lines[i] != "id: " then lines[i][4..] else client.lastEventId)
            && (JoinLines(DataLines(lines)) == "" ==> after.delivered == client.delivered)
            && (JoinLines(DataLines(lines)) != "" ==>
                  after.delivered == client.delivered + [JoinLines(DataLines(lines))])
  {
    hide SplitLines, JoinLines, DataLines, FirstId, NewlineFree;
    SplitOfJoinLines(lines);
    FirstIdIs(lines, i);
    if i < |lines| {
      IdOf(lines[i]);
    }
  }

  lemma IdOf(line: string)
    requires "id: " <= line
    ensures line[4..] == "" <==> line == "id: "
  {
    assert line == "id: " + line[4..];
  }

  lemma {:induction false} FirstIdIs(lines: seq<string>, i: nat)
    requires i <= |lines| && forall k :: 0 <= k < i ==> !("id: " <= lines[k])
    requires i < |lines| ==> "id: " <= lines[i]
    ensures FirstId(lines) == if i < |lines| then Some(lines[i][4..]) else None
  {
    if i > 0 {
      FirstIdIs(lines[1..], i - 1);
    }
  }

  lemma EventLines(e: Event)
    requires NewlineFree(e.eventType) && NewlineFree(e.data)
    ensures SplitLines(EventFrame(e)) == ["id: " + Decimal(e.sequence), "event: " + e.eventType, "data: " + e.data]
  {
    var a, b, c := "id: " + Decimal(e.sequence), "event: " + e.eventType, "data: " + e.data;
    assert EventFrame(e) == a + ("\n" + (b + ("\n" + c)));
    LinesCons(a, b + ("\n" + c));
    LinesCons(b, c);
    LinesOfNewlineFree(c);
  }

  /** The client reads from an event's frame the event's number and its data. */
  lemma DispatchEvent(client: Client, e: Event)
    requires NewlineFree(e.eventType) && NewlineFree(e.data) && e.data != ""
    ensures Dispatch(client, EventFrame(e)) == Client(Decimal(e.sequence), client.delivered + [e.data])
  {
    var a, b, c := "id: " + Decimal(e.sequence), "event: " + e.eventType, "data: " + e.data;
    var lines := [a, b, c];
    EventLines(e);
    assert FirstId(lines) == Some(Decimal(e.sequence));
    assert DataLines([c]) == [e.data] by {
      assert c[6..] == e.data;
      assert DataLines([c][1..]) == [];
    }
    assert b[0] == 'e' && a[0] == 'i';
    assert lines[1..] == [b, c] && [b, c][1..] == [c];
    assert DataLines(lines) == [e.data];
  }

  lemma DispatchKeepalive(client: Client)
    ensures Dispatch(client, KEEPALIVE) == client
  {
    LinesOfNewlineFree(KEEPALIVE);
    assert KEEPALIVE[0] == ':' && "id: "[0] == 'i' && "data: "[0] == 'd';
    FirstIdIs([KEEPALIVE], 1);
    DataLinesGrow([], KEEPALIVE);
    assert [] + [KEEPALIVE] == [KEEPALIVE];
    assert DataLines([]) == [] && JoinLines([]) == "";
    hide SplitLines, FirstId, DataLines, JoinLines;
  }

  lemma GapFreeAppend(a: string, b: string)
    requires GapFree(a) && GapFree(b)
    requires a == "" || b == "" || a[|a| - 1] != '\n' || b[0] != '\n'
    ensures GapFree(a + b)
  {
  }

  lemma FrameGapFree(e: Event)
    requires NewlineFree(e.eventType) && NewlineFree(e.data)
    ensures GapFree(EventFrame(e) + "\n")
  {
    var a, b, c := "id: " + Decimal(e.sequence), "event: " + e.eventType, "data: " + e.data;
    var b', c' := "\n" + b, "\n" + c;
    assert b[0] == 'e' && c[0] == 'd';
    GapFreeAppend(c', "\n");
    GapFreeAppend(b', c' + "\n");
    GapFreeAppend(a, b' + (c' + "\n"));
    assert EventFrame(e) + "\n" == a + (b' + (c' + "\n"));
  }

  // ------------------------------------------------------------ exactly once

  /** `frames` are keepalives and the events of the log from `k` on, in order and without gaps. */
  ghost predicate InOrder(log: seq<Event>, k: nat, frames: seq<string>)
    decreases |frames|
  {
    frames != [] ==>
      if frames[0] == KEEPALIVE then InOrder(log, k, frames[1..])
      else k < |log| && frames[0] == EventFrame(log[k]) && InOrder(log, k + 1, frames[1..])
  }

  function Payloads(events: seq<Event>): seq<string> {
    seq(|events|, i requires 0 <= i < |events| => events[i].data)
  }

  /** The client has delivered exactly the first `k` events and remembers the last of them. */
  ghost predicate Synced(log: seq<Event>, client: Client, k: nat) {
    && k <= |log|
    && client.delivered == Payloads(log[..k])
    && client.lastEventId == (if k == 0 then "" else Decimal(log[k - 1].sequence))
  }

  /** Where `frames` leave a client that has seen the first `k` events. */
  ghost function EndPosition(k: nat, frames: seq<string>): (m: nat)
    ensures k <= m
    decreases |frames|
  {
    if frames == [] then k
    else EndPosition(if frames[0] == KEEPALIVE then k else k + 1, frames[1..])
  }

  lemma EventIsNotKeepalive(e: Event)
    ensures EventFrame(e) != KEEPALIVE
  {
    assert EventFrame(e)[0] == 'i' && KEEPALIVE[0] == ':';
  }

  lemma DispatchNext(log: seq<Event>, client: Client, k: nat)
    requires WellFormedLog(log) && Synced(log, client, k) && k < |log|
    ensures Synced(log, Dispatch(client, EventFrame(log[k])), k + 1)
  {
    DispatchEvent(client, log[k]);
    assert Payloads(log[..k + 1]) == Payloads(log[..k]) + [log[k].data];
  }

  /** Frames that carry on where the client stands keep it in step with the log. */
  lemma {:induction false} DispatchInOrder(log: seq<Event>, client: Client, k: nat, frames: seq<string>)
    requires WellFormedLog(log) && Synced(log, client, k) && InOrder(log, k, frames)
    ensures Synced(log, DispatchAll(client, frames), EndPosition(k, frames))
    decreases |frames|
  {
    hide Dispatch, EventFrame, Synced, WellFormedLog;
    if frames != [] {
      if frames[0] == KEEPALIVE {
        DispatchKeepalive(client);
        DispatchInOrder(log, client, k, frames[1..]);
      } else {
        DispatchNext(log, client, k);
        DispatchInOrder(log, Dispatch(client, frames[0]), k + 1, frames[1..]);
      }
    }
  }

  lemma {:induction false} InOrderPrefix(log: seq<Event>, k: nat, frames: seq<string>, n: nat)
    requires InOrder(log, k, frames) && n <= |frames|
    ensures InOrder(log, k, frames[..n])
    decreases n
  {
    if n > 0 {
      var next := if frames[0] == KEEPALIVE then k else k + 1;
      InOrderPrefix(log, next, frames[1..], n - 1);
      assert frames[..n][1..] == frames[1..][..n - 1];
    }
  }

  lemma KeepaliveGapFree()
    ensures GapFree(KEEPALIVE + "\n")
  {
  }

  lemma {:induction false} SplitWire(log: seq<Event>, k: nat, frames: seq<string>)
    requires WellFormedLog(log) && InOrder(log, k, frames)
    ensures SplitFrames(Wire(frames)) == frames + [""]
    decreases |frames|
  {
    hide GapFree, EventFrame;
    if frames != [] {
      var frame := frames[0];
      if frame == KEEPALIVE {
        SplitWire(log, k, frames[1..]);
        KeepaliveGapFree();
      } else {
        SplitWire(log, k + 1, frames[1..]);
        FrameGapFree(log[k]);
      }
      SplitOne(frame, Wire(frames[1..]));
      assert frames == [frame] + frames[1..];
    }
  }

  /** Cutting the wire anywhere loses at most an incomplete frame at the end. */
  lemma CutWire(log: seq<Event>, k: nat, frames: seq<string>, text: string) returns (n: nat)
    requires WellFormedLog(log) && InOrder(log, k, frames) && text <= Wire(frames)
    ensures n <= |frames| && Front(SplitFrames(text)) == frames[..n]
    ensures text == Wire(frames) ==> n == |frames|
  {
    hide SplitFrames, Wire, EventFrame, InOrder, WellFormedLog;
    SplitWire(log, k, frames);
    var rest := Wire(frames)[|text|..];
    assert Wire(frames) == text + rest;
    SplitAppend(text, rest);
    var complete := Front(SplitFrames(text));
    n := |complete|;
    assert complete == (frames + [""])[..n];
    assert (frames + [""])[..n] == frames[..n];
  }

  // The server's side: what it sends is in order from where the client stands.

  lemma {:induction false} AfterIsSuffix(log: seq<Event>, cursor: nat, k: nat)
    requires k <= |log|
    requires forall i :: 0 <= i < k ==> log[i].sequence <= cursor
    requires forall i :: k <= i < |log| ==> log[i].sequence > cursor
    ensures After(log, cursor) == log[k..]
  {
    if log != [] {
      if k == 0 {
        AfterIsSuffix(log[1..], cursor, 0);
        assert log == [log[0]] + log[1..];
      } else {
        AfterIsSuffix(log[1..], cursor, k - 1);
      }
    }
  }

  /** The number of the `k`-th event, which is where a client that has seen `k` events resumes. */
  function Resume(log: seq<Event>, k: nat): nat
    requires k <= |log|
  {
    if k == 0 then 0 else log[k - 1].sequence
  }

  lemma HeaderResumes(log: seq<Event>, client: Client, k: nat)
    requires Synced(log, client, k)
    ensures Cursor(Header(client)) == Resume(log, k)
  {
    if k > 0 {
      ValueOfDecimal(log[k - 1].sequence);
    }
  }

  /** What the server makes of a header: a numeral's number, and 0 of anything else. */
  lemma CursorReads(n: nat, header: string)
    ensures Cursor(None) == Cursor(Some("")) == 0 && Cursor(Some(Decimal(n))) == n
    ensures (exists i :: 0 <= i < |header| && !IsDigit(header[i])) ==> Cursor(Some(header)) == 0
  {
    ValueOfDecimal(n);
  }

  /** How far one poll gets. */
  function PollReach(log: seq<Event>, k: nat, visible: nat): (m: nat)
    ensures k <= m
  {
    var v := if visible <= |log| then visible else |log|;
    if v <= k then k else if v <= k + BATCH then v else k + BATCH
  }

  /** A poll gets no further than one hundred events, no further than what is visible, and as far as it then can. */
  lemma PollReachIs(log: seq<Event>, k: nat, visible: nat)
    requires k <= |log|
    ensures var m := PollReach(log, k, visible);
            && m <= k + 100 && (m == k || m <= visible) && m <= |log|
            && (m == k + 100 || m >= visible || m == |log|)
  {
  }

  lemma BatchIsNext(log: seq<Event>, k: nat, visible: nat)
    requires WellFormedLog(log) && k <= |log|
    ensures PollReach(log, k, visible) <= |log|
    ensures Batch(log, Resume(log, k), visible) == log[k..PollReach(log, k, visible)]
  {
    var v := if visible <= |log| then visible else |log|;
    var seen := if k <= v then k else v;
    var part := log[..v];
    assert |part| == v && seen <= v;
    forall i | 0 <= i < |part| ensures part[i].sequence <= Resume(log, k) <==> i < seen {
      assert part[i] == log[i];
    }
    AfterIsSuffix(part, Resume(log, k), seen);
    assert (if visible <= |log| then log[..visible] else log) == part;
    var m := PollReach(log, k, visible);
    assert part[seen..] == log[seen..v];
    if v > k {
      assert seen == k;
      assert log[k..v][..m - k] == log[k..m];
    } else {
      assert part[seen..] == [] == log[k..m];
    }
  }

  lemma {:induction false} EventFramesInOrder(log: seq<Event>, k: nat, m: nat, rest: seq<string>)
    requires k <= m <= |log| && InOrder(log, m, rest)
    ensures InOrder(log, k, EventFrames(log[k..m]) + rest)
    ensures EndPosition(k, EventFrames(log[k..m]) + rest) == EndPosition(m, rest)
    decreases m - k
  {
    if k == m {
      assert EventFrames(log[k..m]) + rest == rest;
    } else {
      EventFramesInOrder(log, k + 1, m, rest);
      EventIsNotKeepalive(log[k]);
      assert log[k..m][1..] == log[k + 1..m];
      var all := EventFrames(log[k..m]) + rest;
      assert all[1..] == EventFrames(log[k + 1..m]) + rest;
    }
  }

  /** One poll sends the events it finds, or a keepalive, and the server goes on from there. */
  lemma ServerStep(log: seq<Event>, k: nat, polls: seq<nat>)
    requires WellFormedLog(log) && k <= |log| && polls != []
    ensures var m := PollReach(log, k, polls[0]);
            && k <= m <= |log|
            && ServerFrames(log, Resume(log, k), polls)
               == (if m == k then [KEEPALIVE] else EventFrames(log[k..m]))
                  + ServerFrames(log, Resume(log, m), polls[1..])
            && Reached(log, k, polls) == Reached(log, m, polls[1..])
  {
    hide Batch, WellFormedLog, PollReach, EventFrames;
    BatchIsNext(log, k, polls[0]);
  }

  lemma KeepaliveInOrder(log: seq<Event>, k: nat, rest: seq<string>)
    requires InOrder(log, k, rest)
    ensures InOrder(log, k, [KEEPALIVE] + rest)
    ensures EndPosition(k, [KEEPALIVE] + rest) == EndPosition(k, rest)
  {
    assert ([KEEPALIVE] + rest)[1..] == rest;
  }

  /** How far a client gets that reads all that these polls send. */
  ghost function Reached(log: seq<Event>, k: nat, polls: seq<nat>): nat
    decreases |polls|
  {
    if polls == [] then k else Reached(log, PollReach(log, k, polls[0]), polls[1..])
  }

  lemma {:induction false} ServerInOrder(log: seq<Event>, k: nat, polls: seq<nat>)
    requires WellFormedLog(log) && k <= |log|
    ensures InOrder(log, k, ServerFrames(log, Resume(log, k), polls))
    ensures EndPosition(k, ServerFrames(log, Resume(log, k), polls)) == Reached(log, k, polls)
    decreases |polls|
  {
    if polls != [] {
      hide *;
      var m := PollReach(log, k, polls[0]);
      ServerStep(log, k, polls);
      ServerInOrder(log, m, polls[1..]);
      var rest := ServerFrames(log, Resume(log, m), polls[1..]);
      if m == k {
        KeepaliveInOrder(log, k, rest);
      } else {
        EventFramesInOrder(log, k, m, rest);
      }
    }
  }

  /** One connection, cut anywhere, keeps the client in step and never moves it back. */
  lemma ConnectionKeepsStep(log: seq<Event>, client: Client, k: nat, chunks: seq<string>) returns (m: nat)
    requires WellFormedLog(log) && Synced(log, client, k)
    requires HonestText(log, Header(client), Flatten(chunks))
    ensures k <= m && Synced(log, ReadAll(client, "", chunks).0, m)
  {
    var text := Flatten(chunks);
    HeaderResumes(log, client, k);
    var polls :| text <= Wire(ServerFrames(log, Resume(log, k), polls));
    var frames := ServerFrames(log, Resume(log, k), polls);
    ServerInOrder(log, k, polls);
    var n := CutWire(log, k, frames, text);
    InOrderPrefix(log, k, frames, n);
    DispatchInOrder(log, client, k, frames[..n]);
    CutsDoNotMatter(client, "", chunks, text);
    m := EndPosition(k, frames[..n]);
  }

  /** A connection read to the end of what was sent loses nothing of it. */
  lemma NothingSentIsLost(log: seq<Event>, client: Client, k: nat, chunks: seq<string>, polls: seq<nat>)
    requires WellFormedLog(log) && Synced(log, client, k)
    requires Flatten(chunks) == Wire(ServerFrames(log, Cursor(Header(client)), polls))
    ensures Synced(log, ReadAll(client, "", chunks).0, Reached(log, k, polls))
  {
    var text := Flatten(chunks);
    HeaderResumes(log, client, k);
    var frames := ServerFrames(log, Resume(log, k), polls);
    ServerInOrder(log, k, polls);
    var n := CutWire(log, k, frames, text);
    assert frames[..n] == frames;
    DispatchInOrder(log, client, k, frames);
    CutsDoNotMatter(client, "", chunks, text);
  }

  lemma {:induction false} SessionKeepsStep(log: seq<Event>, client: Client, k: nat, connections: seq<Connection>)
    returns (m: nat)
    requires WellFormedLog(log) && Synced(log, client, k) && HonestRun(log, client, connections)
    ensures k <= m && Synced(log, Session(client, connections).client, m)
    decreases |connections|
  {
    m := k;
    if connections != [] && !connections[0].Refused? {
      m := ConnectionKeepsStep(log, client, k, connections[0].chunks);
      if connections[0].Body? {
        m := SessionKeepsStep(log, ReadAll(client, "", connections[0].chunks).0, m, connections[1..]);
      }
    }
  }

  /**
   Over any number of connections, each broken off at any character, what the
   subscriber has been given is exactly the data of the first events of the log,
   each once and in order, and the remembered id is that of the last of them.
   */
  lemma DeliveredExactlyOnce(log: seq<Event>, connections: seq<Connection>)
    requires WellFormedLog(log) && HonestRun(log, FRESH, connections)
    ensures var client := Session(FRESH, connections).client;
            exists m :: 0 <= m <= |log| && client.delivered == Payloads(log)[..m]
              && client.lastEventId == (if m == 0 then "" else Decimal(log[m - 1].sequence))
  {
    var m := SessionKeepsStep(log, FRESH, 0, connections);
    assert Payloads(log[..m]) == Payloads(log)[..m];
  }

  /** With `n` polls that see the whole log, a client behind by at most `100 n` events catches up. */
  lemma {:induction false} EnoughPollsCatchUp(log: seq<Event>, k: nat, polls: seq<nat>)
    requires k <= |log| <= k + 100 * |polls|
    requires forall i :: 0 <= i < |polls| ==> polls[i] >= |log|
    ensures Reached(log, k, polls) == |log|
    decreases |polls|
  {
    if polls != [] {
      EnoughPollsCatchUp(log, PollReach(log, k, polls[0]), polls[1..]);
    }
  }
}
