/** Tailing an NDJSON event log by byte offsets (backend/src/ade_api/common/sse.py), and the
    writer of that log (`EventLog.append` in backend/src/ade_worker/worker.py). */
module EventTail {
  import opened Wrappers
  import opened Arithmetic

  const LF: Byte := 10
  const CR: Byte := 13

  /** The `event` value of a text that is a JSON object with one, else none. */
  type Json = seq<Byte> -> Option<string>

  /** What a line, with its line end, is sent as: its text and its event value. */
  type Parser = seq<Byte> -> Option<(seq<Byte>, string)>

  /** A line sent on: its text, the name it is sent under, its event value and the byte offset
      its line ends at. */
  datatype Event = Event(raw: seq<Byte>, name: string, value: string, id: nat)

  /** `str(event.get("event") or "message")`. */
  function NameOf(value: string): string {
    if value == "" then "message" else value
  }

  // ----- The reference: lines end at line feeds

  function Strip(line: seq<Byte>): seq<Byte> {
    if line != [] && (line[|line| - 1] == LF || line[|line| - 1] == CR) then Strip(line[..|line| - 1]) else line
  }

  /** `_parse_event_line` of the line without its end. */
  function Parsed(json: Json): Parser {
    line =>
      match json(Strip(line))
      case None => None
      case Some(value) => Some((Strip(line), value))
  }

  function EventOf(line: seq<Byte>, id: nat, parse: Parser): (events: seq<Event>)
    ensures |events| <= 1
  {
    match parse(line)
    case None => []
    case Some((text, value)) => [Event(text, NameOf(value), value, id)]
  }

  /** The bytes of the last line, while it has no line feed yet. */
  function Pending(bs: seq<Byte>): (tail: seq<Byte>)
    ensures |tail| <= |bs|
  {
    if bs == [] || bs[|bs| - 1] == LF then [] else Pending(bs[..|bs| - 1]) + [bs[|bs| - 1]]
  }

  /** What one more byte completes. */
  function ByteEvents(pending: seq<Byte>, last: Byte, id: nat, parse: Parser): seq<Event> {
    if last == LF then EventOf(pending + [LF], id, parse) else []
  }

  /** The events of the complete lines in these bytes, which start at offset `base`: each
      line ends at a line feed and is identified by the offset after it. */
  function LineEvents(bs: seq<Byte>, base: nat, parse: Parser): seq<Event> {
    if bs == [] then []
    else
      var front := bs[..|bs| - 1];
      LineEvents(front, base, parse) + ByteEvents(Pending(front), bs[|bs| - 1], base + |bs|, parse)
  }

  /** How many bytes the complete lines take. */
  function Complete(bs: seq<Byte>): nat {
    |bs| - |Pending(bs)|
  }

  /** Events up to and including the first that stops the stream. */
  function UntilStop(events: seq<Event>, stop: set<string>): seq<Event> {
    if events == [] then []
    else if events[0].value in stop then [events[0]]
    else [events[0]] + UntilStop(events[1..], stop)
  }

  predicate Stops(events: seq<Event>, stop: set<string>) {
    exists i :: 0 <= i < |events| && events[i].value in stop
  }

  predicate NoLf(bs: seq<Byte>) {
    forall i :: 0 <= i < |bs| ==> bs[i] != LF
  }

  lemma {:induction false} NoLfPending(bs: seq<Byte>, base: nat, parse: Parser)
    requires NoLf(bs)
    ensures Pending(bs) == bs && LineEvents(bs, base, parse) == []
  {
    if bs != [] {
      NoLfPending(bs[..|bs| - 1], base, parse);
    }
  }

  lemma {:induction false} PendingHasNoLf(bs: seq<Byte>)
    ensures NoLf(Pending(bs)) && bs[Complete(bs)..] == Pending(bs)
  {
    if bs != [] && bs[|bs| - 1] != LF {
      PendingHasNoLf(bs[..|bs| - 1]);
    }
  }

  lemma {:induction false} PendingOfAppend(a: seq<Byte>, b: seq<Byte>)
    ensures Pending(a + b) == Pending(Pending(a) + b)
  {
    if b == [] {
      assert a + b == a && Pending(a) + b == Pending(a);
      PendingHasNoLf(a);
      NoLfPending(Pending(a), 0, _ => None);
    } else {
      var front, last := b[..|b| - 1], b[|b| - 1];
      assert (a + b)[..|a + b| - 1] == a + front;
      assert (Pending(a) + b)[..|Pending(a) + b| - 1] == Pending(a) + front;
      PendingOfAppend(a, front);
    }
  }

  lemma LinesOfSnoc(bs: seq<Byte>, last: Byte, base: nat, parse: Parser, events: seq<Event>, pending: seq<Byte>)
    requires LineEvents(bs, base, parse) == events && Pending(bs) == pending
    ensures LineEvents(bs + [last], base, parse) == events + ByteEvents(pending, last, base + |bs| + 1, parse)
  {
    assert (bs + [last])[..|bs|] == bs;
  }

  lemma PendingOfByte(bs: seq<Byte>, last: Byte)
    ensures Pending(bs + [last]) == if last == LF then [] else Pending(bs) + [last]
  {
    assert (bs + [last])[..|bs|] == bs;
  }

  lemma SamePending(all: seq<Byte>, part: seq<Byte>, last: Byte)
    requires Pending(all) == Pending(part)
    ensures Pending(all + [last]) == Pending(part + [last])
  {
    PendingOfByte(all, last);
    PendingOfByte(part, last);
  }

  lemma Regroup(a: seq<Event>, b: seq<Event>, c: seq<Event>)
    ensures (a + b) + c == a + (b + c)
  {
  }

  /** One byte more: both sides gain the same. */
  lemma LinesOfByte(all: seq<Byte>, part: seq<Byte>, last: Byte, base: nat, skip: nat, parse: Parser, first: seq<Event>, more: seq<Event>)
    requires Pending(all) == Pending(part) && |all| == skip + |part|
    requires LineEvents(all, base, parse) == first + more && LineEvents(part, base + skip, parse) == more
    ensures LineEvents(all + [last], base, parse) == first + LineEvents(part + [last], base + skip, parse)
  {
    var pending := Pending(all);
    LinesOfSnoc(all, last, base, parse, first + more, pending);
    LinesOfSnoc(part, last, base + skip, parse, more, pending);
    Regroup(first, more, ByteEvents(pending, last, base + |all| + 1, parse));
  }

  lemma NothingAdded(a: seq<Byte>, b: seq<Byte>)
    requires b == []
    ensures a + b == a
  {
  }

  lemma LinesOfNone(a: seq<Byte>, base: nat, skip: nat, parse: Parser, first: seq<Event>)
    requires skip == Complete(a) && first == LineEvents(a, base, parse)
    ensures LineEvents(a, base, parse) == first + LineEvents(Pending(a), base + skip, parse) && Pending(a) == Pending(Pending(a))
  {
    PendingHasNoLf(a);
    NoLfPending(Pending(a), base + skip, parse);
  }

  /** Two texts that agree so far go on to agree. */
  lemma {:induction false} LinesOfMore(all: seq<Byte>, part: seq<Byte>, b: seq<Byte>, base: nat, skip: nat, parse: Parser, first: seq<Event>, more: seq<Event>)
    requires Pending(all) == Pending(part) && |all| == skip + |part|
    requires LineEvents(all, base, parse) == first + more && LineEvents(part, base + skip, parse) == more
    ensures LineEvents(all + b, base, parse) == first + LineEvents(part + b, base + skip, parse)
    ensures Pending(all + b) == Pending(part + b)
    decreases |b|
  {
    if b == [] {
      NothingAdded(all, b);
      NothingAdded(part, b);
    } else {
      LinesOfByte(all, part, b[0], base, skip, parse, first, more);
      SamePending(all, part, b[0]);
      LinesOfMore(all + [b[0]], part + [b[0]], b[1..], base, skip, parse, first, LineEvents(part + [b[0]], base + skip, parse));
      ByteByByte(all, b);
      ByteByByte(part, b);
    }
  }

  lemma ByteByByte(a: seq<Byte>, b: seq<Byte>)
    requires b != []
    ensures a + b == a + [b[0]] + b[1..]
  {
  }

  lemma LinesOfAll(a: seq<Byte>, b: seq<Byte>, all: seq<Byte>, part: seq<Byte>, base: nat, skip: nat, parse: Parser, first: seq<Event>)
    requires all == a + b && part == Pending(a) + b && skip == Complete(a) && first == LineEvents(a, base, parse)
    ensures LineEvents(all, base, parse) == first + LineEvents(part, base + skip, parse) && Pending(all) == Pending(part)
  {
    LinesOfNone(a, base, skip, parse, first);
    LinesOfMore(a, Pending(a), b, base, skip, parse, first, LineEvents(Pending(a), base + skip, parse));
  }

  /** Reading on: what bytes read later complete is the pending line and those bytes. */
  lemma LinesOfAppend(a: seq<Byte>, b: seq<Byte>, base: nat, parse: Parser)
    ensures LineEvents(a + b, base, parse) == LineEvents(a, base, parse) + LineEvents(Pending(a) + b, base + Complete(a), parse)
  {
    LinesOfAll(a, b, a + b, Pending(a) + b, base, Complete(a), parse, LineEvents(a, base, parse));
  }

  /** Exactly one line: a line feed at its end and nowhere else. */
  predicate IsLine(line: seq<Byte>) {
    line != [] && line[|line| - 1] == LF && NoLf(line[..|line| - 1])
  }

  lemma OneLine(line: seq<Byte>, base: nat, parse: Parser)
    requires IsLine(line)
    ensures LineEvents(line, base, parse) == EventOf(line, base + |line|, parse) && Pending(line) == []
  {
    var front := line[..|line| - 1];
    NoLfPending(front, base, parse);
    assert front + [LF] == line;
  }

  /** After complete lines, reading starts afresh. */
  lemma LinesAfterWhole(a: seq<Byte>, b: seq<Byte>, base: nat, parse: Parser, first: seq<Event>, more: seq<Event>)
    requires Pending(a) == [] && LineEvents(a, base, parse) == first && LineEvents(b, base + |a|, parse) == more
    ensures LineEvents(a + b, base, parse) == first + more
  {
    NothingPending(a, b);
    LinesOfAll(a, b, a + b, b, base, |a|, parse, first);
  }

  lemma NothingPending(a: seq<Byte>, b: seq<Byte>)
    requires Pending(a) == []
    ensures Pending(a) + b == b && Complete(a) == |a|
  {
  }

  lemma PendingAfterWhole(a: seq<Byte>, b: seq<Byte>)
    requires Pending(a) == []
    ensures Pending(a + b) == Pending(b)
  {
    PendingOfAppend(a, b);
    assert [] + b == b;
  }

  lemma LinesOfCons(line: seq<Byte>, rest: seq<Byte>, base: nat, parse: Parser, more: seq<Event>)
    requires IsLine(line) && LineEvents(rest, base + |line|, parse) == more
    ensures LineEvents(line + rest, base, parse) == EventOf(line, base + |line|, parse) + more
    ensures Pending(line + rest) == Pending(rest)
  {
    OneLine(line, base, parse);
    LinesAfterWhole(line, rest, base, parse, EventOf(line, base + |line|, parse), more);
    PendingAfterWhole(line, rest);
  }

  /** The complete lines alone have the same events. */
  lemma {:induction false} CompletePart(bs: seq<Byte>, base: nat, parse: Parser)
    ensures LineEvents(bs[..Complete(bs)], base, parse) == LineEvents(bs, base, parse)
    ensures Pending(bs[..Complete(bs)]) == []
  {
    if bs == [] || bs[|bs| - 1] == LF {
      assert bs[..Complete(bs)] == bs;
    } else {
      var front := bs[..|bs| - 1];
      CompletePart(front, base, parse);
      assert bs[..Complete(bs)] == front[..Complete(front)];
    }
  }

  lemma StopsCons(events: seq<Event>, stop: set<string>)
    requires events != []
    ensures Stops(events, stop) <==> events[0].value in stop || Stops(events[1..], stop)
  {
    if i :| 0 <= i < |events[1..]| && events[1..][i].value in stop {
      assert events[i + 1].value in stop;
    }
    if i :| 0 < i < |events| && events[i].value in stop {
      assert events[1..][i - 1].value in stop;
    }
  }

  lemma {:induction false} UntilStopOfAppend(a: seq<Event>, b: seq<Event>, stop: set<string>)
    ensures UntilStop(a + b, stop) == UntilStop(a, stop) + if Stops(a, stop) then [] else UntilStop(b, stop)
    ensures !Stops(a, stop) ==> UntilStop(a, stop) == a
  {
    if a == [] {
      assert a + b == b;
    } else {
      assert (a + b)[1..] == a[1..] + b;
      UntilStopOfAppend(a[1..], b, stop);
      StopsCons(a, stop);
    }
  }

  // ----- What the tailer does with a chunk

  /** The length of the first line as `bytes.splitlines` cuts it: a line feed, a carriage
      return, or both together end a line. */
  function LineLength(bs: seq<Byte>): (n: nat)
    requires bs != []
    ensures 1 <= n <= |bs|
  {
    if bs[0] == LF || |bs| == 1 then 1
    else if bs[0] == CR then (if bs[1] == LF then 2 else 1)
    else 1 + LineLength(bs[1..])
  }

  function SplitLines(bs: seq<Byte>): seq<seq<Byte>>
    decreases |bs|
  {
    if bs == [] then [] else [bs[..LineLength(bs)]] + SplitLines(bs[LineLength(bs)..])
  }

  predicate EndsInLf(line: seq<Byte>) {
    line != [] && line[|line| - 1] == LF
  }

  datatype Fed = Fed(events: seq<Event>, cursor: nat, buffer: seq<Byte>, stopped: bool)

  /** The loop over the lines of one buffer: it gives up at the first line without a line feed. */
  function FeedLines(lines: seq<seq<Byte>>, cursor: nat, parse: Parser, stop: set<string>): Fed {
    if lines == [] then Fed([], cursor, [], false)
    else if !EndsInLf(lines[0]) then Fed([], cursor, lines[0], false)
    else
      var at := cursor + |lines[0]|;
      var events := EventOf(lines[0], at, parse);
      if events != [] && events[0].value in stop then Fed(events, at, [], true)
      else
        var rest := FeedLines(lines[1..], at, parse, stop);
        rest.(events := events + rest.events)
  }

  predicate BareAt(bs: seq<Byte>, i: int) {
    0 <= i < |bs| - 1 && bs[i] == CR && bs[i + 1] != LF
  }

  /** Every carriage return is followed by a line feed, or is the last byte so far. */
  predicate NoBareCr(bs: seq<Byte>) {
    forall i {:trigger BareAt(bs, i)} :: 0 <= i < |bs| ==> !BareAt(bs, i)
  }

  lemma NoBareCrSlice(bs: seq<Byte>, i: nat, j: nat)
    requires NoBareCr(bs) && i <= j <= |bs|
    ensures NoBareCr(bs[i..j])
  {
    forall k | 0 <= k < j - i
      ensures !BareAt(bs[i..j], k)
    {
      assert !BareAt(bs, i + k);
    }
  }

  lemma StopsOfAppend(a: seq<Event>, b: seq<Event>, stop: set<string>)
    ensures Stops(a + b, stop) <==> Stops(a, stop) || Stops(b, stop)
  {
    if i :| 0 <= i < |a| && a[i].value in stop {
      assert (a + b)[i].value in stop;
    }
    if i :| 0 <= i < |b| && b[i].value in stop {
      assert (a + b)[|a| + i].value in stop;
    }
  }

  /** What `splitlines` cuts off first: no line feed and no bare carriage return before its end. */
  lemma {:induction false} LineLengthCut(bs: seq<Byte>)
    requires bs != []
    ensures var n := LineLength(bs);
            && NoLf(bs[..n - 1])
            && (forall i {:trigger BareAt(bs, i)} :: 0 <= i < n - 1 ==> !BareAt(bs, i))
            && (bs[n - 1] != LF && n < |bs| ==> BareAt(bs, n - 1))
  {
    if bs[0] != LF && |bs| > 1 && bs[0] != CR {
      var tail := bs[1..];
      LineLengthCut(tail);
      var m := LineLength(tail);
      forall i | 0 <= i < m
        ensures bs[..m][i] != LF && !BareAt(bs, i)
      {
        if i > 0 {
          assert tail[..m - 1][i - 1] == bs[i];
          assert !BareAt(tail, i - 1);
        }
      }
      assert tail[m - 1] == bs[m];
      assert BareAt(tail, m - 1) ==> BareAt(bs, m);
    }
  }

  lemma FirstCut(bs: seq<Byte>)
    requires bs != [] && NoBareCr(bs)
    ensures var line, rest := bs[..LineLength(bs)], bs[LineLength(bs)..];
            && bs == line + rest && NoBareCr(rest)
            && (if EndsInLf(line) then IsLine(line) else rest == [] && NoLf(bs))
  {
    var n := LineLength(bs);
    LineLengthCut(bs);
    NoBareCrSlice(bs, n, |bs|);
    assert bs[n..|bs|] == bs[n..];
    assert bs[..n][..n - 1] == bs[..n - 1];
    forall i | 0 <= i < n - 1
      ensures bs[i] != LF
    {
      assert bs[..n - 1][i] == bs[i];
    }
    assert !BareAt(bs, n - 1);
  }

  lemma StopSplit(one: seq<Event>, more: seq<Event>, stop: set<string>)
    requires |one| <= 1
    ensures Stops(one + more, stop) <==> (one != [] && one[0].value in stop) || Stops(more, stop)
    ensures UntilStop(one + more, stop) == if one != [] && one[0].value in stop then one else one + UntilStop(more, stop)
  {
    UntilStopOfAppend(one, more, stop);
    StopsOfAppend(one, more, stop);
    if one != [] {
      assert one == [one[0]];
    }
  }

  /** What the loop should have done: emitted the reference's events and kept the pending line. */
  ghost predicate FedReference(fed: Fed, bs: seq<Byte>, cursor: nat, parse: Parser, stop: set<string>) {
    var events := LineEvents(bs, cursor, parse);
    && fed.events == UntilStop(events, stop) && (fed.stopped <==> Stops(events, stop))
    && (!fed.stopped ==> fed.cursor == cursor + Complete(bs) && fed.buffer == Pending(bs))
  }

  lemma FeedPending(bs: seq<Byte>, cursor: nat, parse: Parser, stop: set<string>)
    requires NoLf(bs)
    ensures FedReference(Fed([], cursor, bs, false), bs, cursor, parse, stop)
  {
    NoLfPending(bs, cursor, parse);
  }

  lemma FeedLine(line: seq<Byte>, rest: seq<Byte>, cursor: nat, parse: Parser, stop: set<string>, more: Fed, fed: Fed)
    requires IsLine(line) && FedReference(more, rest, cursor + |line|, parse, stop)
    requires var events := EventOf(line, cursor + |line|, parse);
             if events != [] && events[0].value in stop then fed == Fed(events, cursor + |line|, [], true)
             else fed == Fed(events + more.events, more.cursor, more.buffer, more.stopped)
    ensures FedReference(fed, line + rest, cursor, parse, stop)
  {
    LinesOfCons(line, rest, cursor, parse, LineEvents(rest, cursor + |line|, parse));
    StopSplit(EventOf(line, cursor + |line|, parse), LineEvents(rest, cursor + |line|, parse), stop);
  }

  /** Whole lines, and at most an unfinished one at the end. */
  predicate CleanLines(lines: seq<seq<Byte>>) {
    lines == [] ||
    if EndsInLf(lines[0]) then IsLine(lines[0]) && CleanLines(lines[1..]) else |lines| == 1 && NoLf(lines[0])
  }

  function Flat(lines: seq<seq<Byte>>): seq<Byte> {
    if lines == [] then [] else lines[0] + Flat(lines[1..])
  }

  lemma {:induction false} SplitIsClean(bs: seq<Byte>)
    requires NoBareCr(bs)
    ensures CleanLines(SplitLines(bs)) && Flat(SplitLines(bs)) == bs
    decreases |bs|
  {
    if bs != [] {
      FirstCut(bs);
      SplitIsClean(bs[LineLength(bs)..]);
    }
  }

  lemma {:induction false} CleanFeed(lines: seq<seq<Byte>>, bytes: seq<Byte>, cursor: nat, parse: Parser, stop: set<string>, fed: Fed)
    requires CleanLines(lines) && bytes == Flat(lines) && fed == FeedLines(lines, cursor, parse, stop)
    ensures FedReference(fed, bytes, cursor, parse, stop)
  {
    if lines == [] {
      FeedPending([], cursor, parse, stop);
    } else if EndsInLf(lines[0]) {
      var at := cursor + |lines[0]|;
      var rest, more := Flat(lines[1..]), FeedLines(lines[1..], at, parse, stop);
      CleanFeed(lines[1..], rest, at, parse, stop, more);
      FeedLinesCons(lines, cursor, parse, stop, more, fed);
      FeedLine(lines[0], rest, cursor, parse, stop, more, fed);
    } else {
      LastLine(lines);
      FeedPending(bytes, cursor, parse, stop);
    }
  }

  lemma FeedLinesCons(lines: seq<seq<Byte>>, cursor: nat, parse: Parser, stop: set<string>, more: Fed, fed: Fed)
    requires lines != [] && EndsInLf(lines[0])
    requires fed == FeedLines(lines, cursor, parse, stop) && more == FeedLines(lines[1..], cursor + |lines[0]|, parse, stop)
    ensures var events := EventOf(lines[0], cursor + |lines[0]|, parse);
            if events != [] && events[0].value in stop then fed == Fed(events, cursor + |lines[0]|, [], true)
            else fed == Fed(events + more.events, more.cursor, more.buffer, more.stopped)
  {
  }

  lemma LastLine(lines: seq<seq<Byte>>)
    requires |lines| == 1
    ensures Flat(lines) == lines[0]
  {
    assert lines[1..] == [];
  }

  /** Without a bare carriage return the loop does what the reference says. */
  lemma FeedIsReference(bs: seq<Byte>, cursor: nat, parse: Parser, stop: set<string>)
    requires NoBareCr(bs)
    ensures FedReference(FeedLines(SplitLines(bs), cursor, parse, stop), bs, cursor, parse, stop)
  {
    SplitIsClean(bs);
    CleanFeed(SplitLines(bs), bs, cursor, parse, stop, FeedLines(SplitLines(bs), cursor, parse, stop));
  }

  // ----- The bytes a bare carriage return costs

  /** The place of the file handle: `cursor` plus what is buffered. */
  function Accounted(fed: Fed): nat {
    fed.cursor + |fed.buffer|
  }

  lemma AccountedStep(line: seq<Byte>, lines: seq<seq<Byte>>, cursor: nat, parse: Parser)
    ensures Accounted(FeedLines([line] + lines, cursor, parse, {}))
         == if EndsInLf(line) then Accounted(FeedLines(lines, cursor + |line|, parse, {})) else cursor + |line|
  {
    assert ([line] + lines)[1..] == lines;
  }

  /** The first line cut off, and what that says of the whole. */
  lemma FirstLine(bs: seq<Byte>, lines: seq<seq<Byte>>) returns (line: seq<Byte>, tail: seq<Byte>, rest: seq<seq<Byte>>)
    requires bs != [] && lines == SplitLines(bs)
    ensures bs == line + tail && line != [] && lines == [line] + rest && rest == SplitLines(tail)
    ensures EndsInLf(line) ==> (NoBareCr(bs) <==> NoBareCr(tail))
    ensures !EndsInLf(line) ==> (NoBareCr(bs) <==> tail == [])
    ensures EndsInLf(bs) ==> tail == [] || EndsInLf(tail)
  {
    var n := LineLength(bs);
    line, tail, rest := bs[..n], bs[n..], SplitLines(bs[n..]);
    CutKeepsPosition(bs, n);
  }

  /** After a buffer the cursor and the kept bytes account for the handle's position exactly
      when the buffer had no bare carriage return; otherwise bytes already read are dropped. */
  lemma {:induction false} PositionKeptIff(bs: seq<Byte>, lines: seq<seq<Byte>>, cursor: nat, parse: Parser, accounted: nat)
    requires lines == SplitLines(bs) && accounted == Accounted(FeedLines(lines, cursor, parse, {}))
    ensures (accounted == cursor + |bs| <==> NoBareCr(bs)) && accounted <= cursor + |bs|
    decreases |bs|
  {
    if bs != [] {
      var line, tail, rest := FirstLine(bs, lines);
      PositionKeptIff(tail, rest, cursor + |line|, parse, Accounted(FeedLines(rest, cursor + |line|, parse, {})));
      AccountedStep(line, rest, cursor, parse);
    }
  }

  lemma CutKeepsPosition(bs: seq<Byte>, n: nat)
    requires bs != [] && n == LineLength(bs)
    ensures EndsInLf(bs[..n]) ==> (NoBareCr(bs) <==> NoBareCr(bs[n..]))
    ensures !EndsInLf(bs[..n]) ==> (NoBareCr(bs) <==> n == |bs|)
  {
    LineLengthCut(bs);
    assert bs == bs[..n] + bs[n..];
    if EndsInLf(bs[..n]) {
      NoBareCrOfCut(bs[..n], bs[n..]);
    } else if n < |bs| {
      assert BareAt(bs, n - 1);
    } else {
      assert !BareAt(bs, n - 1);
    }
  }

  lemma NoBareCrOfCut(line: seq<Byte>, rest: seq<Byte>)
    requires EndsInLf(line) && forall i {:trigger BareAt(line + rest, i)} :: 0 <= i < |line| - 1 ==> !BareAt(line + rest, i)
    ensures NoBareCr(line + rest) <==> NoBareCr(rest)
  {
    var bs := line + rest;
    if NoBareCr(bs) {
      NoBareCrSlice(bs, |line|, |bs|);
      assert bs[|line|..|bs|] == rest;
    }
    if NoBareCr(rest) {
      forall i | 0 <= i < |bs|
        ensures !BareAt(bs, i)
      {
        if i >= |line| {
          assert !BareAt(rest, i - |line|);
        }
      }
    }
  }

  // ----- The tailer and the log over time

  /** The tailer has sent exactly what the reference finds between its start and the handle. */
  ghost predicate Exact(log: seq<Byte>, start: nat, position: nat, sent: seq<Event>, stopped: bool, parse: Parser, stop: set<string>) {
    start <= position <= |log| &&
    var events := LineEvents(log[start..position], start, parse);
    sent == UntilStop(events, stop) && (stopped <==> Stops(events, stop))
  }

  ghost predicate Kept(log: seq<Byte>, start: nat, position: nat, cursor: nat, buffer: seq<Byte>) {
    start <= position <= |log| &&
    cursor == start + Complete(log[start..position]) && buffer == Pending(log[start..position])
  }

  lemma SliceTail(log: seq<Byte>, start: nat, position: nat, n: nat)
    requires start <= position <= |log| && n <= position - start
    ensures log[start + n..position] == log[start..position][n..]
  {
  }

  /** The handle stands behind the cursor by just the buffered bytes. */
  lemma KeptPosition(log: seq<Byte>, start: nat, position: nat, cursor: nat, buffer: seq<Byte>)
    requires Kept(log, start, position, cursor, buffer)
    ensures position == cursor + |buffer| && start <= cursor && log[cursor..position] == buffer
  {
    PendingHasNoLf(log[start..position]);
    SliceTail(log, start, position, Complete(log[start..position]));
  }

  /** What the loop does to the buffer and the next bytes is what the reference does to all. */
  lemma FeedContinues(before: seq<Byte>, chunk: seq<Byte>, start: nat, cursor: nat, sent: seq<Event>, fed: Fed, parse: Parser, stop: set<string>)
    requires cursor == start + Complete(before) && sent == UntilStop(LineEvents(before, start, parse), stop)
    requires !Stops(LineEvents(before, start, parse), stop) && FedReference(fed, Pending(before) + chunk, cursor, parse, stop)
    ensures sent + fed.events == UntilStop(LineEvents(before + chunk, start, parse), stop)
    ensures fed.stopped <==> Stops(LineEvents(before + chunk, start, parse), stop)
  {
    var first, more := LineEvents(before, start, parse), LineEvents(Pending(before) + chunk, cursor, parse);
    LinesContinue(before, chunk, start, cursor, parse, first, more);
    StopContinues(first, more, stop);
  }

  lemma LinesContinue(before: seq<Byte>, chunk: seq<Byte>, start: nat, cursor: nat, parse: Parser, first: seq<Event>, more: seq<Event>)
    requires cursor == start + Complete(before)
    requires first == LineEvents(before, start, parse) && more == LineEvents(Pending(before) + chunk, cursor, parse)
    ensures LineEvents(before + chunk, start, parse) == first + more
  {
    LinesOfAll(before, chunk, before + chunk, Pending(before) + chunk, start, Complete(before), parse, first);
  }

  lemma StopContinues(first: seq<Event>, more: seq<Event>, stop: set<string>)
    requires !Stops(first, stop)
    ensures UntilStop(first, stop) + UntilStop(more, stop) == UntilStop(first + more, stop)
    ensures Stops(first + more, stop) <==> Stops(more, stop)
  {
    UntilStopOfAppend(first, more, stop);
    StopsOfAppend(first, more, stop);
  }

  lemma KeptContinues(before: seq<Byte>, chunk: seq<Byte>)
    ensures Pending(before + chunk) == Pending(Pending(before) + chunk)
    ensures Complete(before + chunk) == Complete(before) + Complete(Pending(before) + chunk)
  {
    PendingOfAppend(before, chunk);
  }

  lemma LogSlices(log: seq<Byte>, start: nat, cursor: nat, position: nat, next: nat)
    requires start <= cursor <= position <= next <= |log| && NoBareCr(log)
    ensures log[start..next] == log[start..position] + log[position..next]
    ensures NoBareCr(log[cursor..position] + log[position..next])
  {
    assert log[cursor..position] + log[position..next] == log[cursor..next];
    NoBareCrSlice(log, cursor, next);
  }

  /** Reading a chunk, of any length. */
  lemma ReadIsExact(log: seq<Byte>, start: nat, position: nat, cursor: nat, buffer: seq<Byte>, sent: seq<Event>, next: nat, fed: Fed, parse: Parser, stop: set<string>)
    requires NoBareCr(log) && Kept(log, start, position, cursor, buffer) && position <= next <= |log|
    requires Exact(log, start, position, sent, false, parse, stop)
    requires fed == FeedLines(SplitLines(buffer + log[position..next]), cursor, parse, stop)
    ensures Exact(log, start, next, sent + fed.events, fed.stopped, parse, stop)
    ensures !fed.stopped ==> Kept(log, start, next, fed.cursor, fed.buffer)
  {
    KeptPosition(log, start, position, cursor, buffer);
    LogSlices(log, start, cursor, position, next);
    FeedIsReference(buffer + log[position..next], cursor, parse, stop);
    FeedContinues(log[start..position], log[position..next], start, cursor, sent, fed, parse, stop);
    KeptContinues(log[start..position], log[position..next]);
  }

  /** Forgetting the buffer and reading again from the cursor, as after a file that was
      briefly missing. */
  lemma ReopenIsExact(log: seq<Byte>, start: nat, position: nat, cursor: nat, buffer: seq<Byte>, sent: seq<Event>, parse: Parser, stop: set<string>)
    requires Kept(log, start, position, cursor, buffer) && Exact(log, start, position, sent, false, parse, stop)
    ensures Kept(log, start, cursor, cursor, []) && Exact(log, start, cursor, sent, false, parse, stop)
  {
    var bs := log[start..position];
    KeptPosition(log, start, position, cursor, buffer);
    CompletePart(bs, start, parse);
    SliceHead(log, start, position, Complete(bs));
    ReopenedPart(log, start, cursor, bs[..Complete(bs)], sent, parse, stop);
  }

  lemma SliceHead(log: seq<Byte>, start: nat, position: nat, n: nat)
    requires start <= position <= |log| && n <= position - start
    ensures log[start..position][..n] == log[start..start + n]
  {
  }

  lemma ReopenedPart(log: seq<Byte>, start: nat, cursor: nat, whole: seq<Byte>, sent: seq<Event>, parse: Parser, stop: set<string>)
    requires start <= cursor <= |log| && whole == log[start..cursor] && Pending(whole) == []
    requires sent == UntilStop(LineEvents(whole, start, parse), stop) && !Stops(LineEvents(whole, start, parse), stop)
    ensures Kept(log, start, cursor, cursor, []) && Exact(log, start, cursor, sent, false, parse, stop)
  {
  }

  /** The generator's state: the place of the handle, its own cursor and buffer, and what it
      has sent. */
  datatype Reader = Reader(position: nat, cursor: nat, buffer: seq<Byte>, sent: seq<Event>, stopped: bool)

  /** At an offset, but never before the file or past its end. */
  function StartAt(offset: int, size: nat): Reader {
    var start := Min(Max(0, offset), size);
    Reader(start, start, [], [], false)
  }

  /** `handle.read(size)` and the loop over the lines it completes. */
  function ReadOnce(log: seq<Byte>, r: Reader, size: nat, parse: Parser, stop: set<string>): (next: Reader)
    requires r.position <= |log|
    ensures next.position <= |log|
  {
    var chunk := log[r.position..Min(r.position + size, |log|)];
    if r.stopped || chunk == [] then r
    else Fetched(r, |chunk|, FeedLines(SplitLines(r.buffer + chunk), r.cursor, parse, stop))
  }

  function Fetched(r: Reader, n: nat, fed: Fed): Reader {
    Reader(r.position + n, fed.cursor, fed.buffer, r.sent + fed.events, fed.stopped)
  }

  /** The file was missing for a moment: the buffer is dropped and the file opened again at the
      cursor, or at its end should that be earlier. */
  function Reopened(log: seq<Byte>, r: Reader): (next: Reader)
    requires r.position <= |log|
    ensures next.position <= |log|
  {
    if r.stopped then r
    else
      var start := Min(r.cursor, |log|);
      r.(position := start, cursor := start, buffer := [])
  }

  datatype Op = Append(bytes: seq<Byte>) | Read(size: nat) | Reopen

  datatype Tailing = Tailing(log: seq<Byte>, reader: Reader)

  function OneOp(t: Tailing, op: Op, parse: Parser, stop: set<string>): (u: Tailing)
    requires t.reader.position <= |t.log|
    ensures u.reader.position <= |u.log|
  {
    match op
    case Append(bytes) => t.(log := t.log + bytes)
    case Read(size) => t.(reader := ReadOnce(t.log, t.reader, size, parse, stop))
    case Reopen => t.(reader := Reopened(t.log, t.reader))
  }

  /** A log and its reader over time. */
  function Run(t: Tailing, ops: seq<Op>, parse: Parser, stop: set<string>): (u: Tailing)
    requires t.reader.position <= |t.log|
    ensures u.reader.position <= |u.log|
  {
    if ops == [] then t else OneOp(Run(t, ops[..|ops| - 1], parse, stop), ops[|ops| - 1], parse, stop)
  }

  lemma RunOneMore(t: Tailing, ops: seq<Op>, n: nat, parse: Parser, stop: set<string>)
    requires n < |ops| && t.reader.position <= |t.log|
    ensures Run(t, ops[..n + 1], parse, stop) == OneOp(Run(t, ops[..n], parse, stop), ops[n], parse, stop)
  {
    assert ops[..n + 1][..n] == ops[..n];
  }

  function After(done: seq<Event>, rest: Fed): Fed {
    rest.(events := done + rest.events)
  }

  lemma FeedStep(lines: seq<seq<Byte>>, i: nat, cursor: nat, parse: Parser, stop: set<string>, done: seq<Event>)
    requires i < |lines|
    ensures var whole := After(done, FeedLines(lines[i..], cursor, parse, stop));
            var at := cursor + |lines[i]|;
            var events := EventOf(lines[i], at, parse);
            if !EndsInLf(lines[i]) then whole == Fed(done, cursor, lines[i], false)
            else if events != [] && events[0].value in stop then whole == Fed(done + events, at, [], true)
            else whole == After(done + events, FeedLines(lines[i + 1..], at, parse, stop))
  {
    assert lines[i..][0] == lines[i] && lines[i..][1..] == lines[i + 1..];
    assert done + [] == done;
    var at := cursor + |lines[i]|;
    assert (done + EventOf(lines[i], at, parse)) + FeedLines(lines[i + 1..], at, parse, stop).events
        == done + (EventOf(lines[i], at, parse) + FeedLines(lines[i + 1..], at, parse, stop).events);
  }

  /** The loop over the lines of a buffer. */
  method Feed(lines: seq<seq<Byte>>, start: nat, parse: Parser, stop: set<string>)
    returns (sent: seq<Event>, cursor: nat, buffer: seq<Byte>, stopped: bool)
    ensures Fed(sent, cursor, buffer, stopped) == FeedLines(lines, start, parse, stop)
  {
    sent, cursor, buffer, stopped := [], start, [], false;
    ghost var whole := FeedLines(lines, start, parse, stop);
    AfterNothing(lines, whole);
    var i := 0;
    while i < |lines|
      invariant 0 <= i <= |lines| && !stopped && buffer == []
      invariant whole == After(sent, FeedLines(lines[i..], cursor, parse, stop))
    {
      var line := lines[i];
      FeedStep(lines, i, cursor, parse, stop, sent);
      if !EndsInLf(line) {
        buffer := line;
        return;
      }
      cursor := cursor + |line|;
      var events := EventOf(line, cursor, parse);
      sent := sent + events;
      if events != [] && events[0].value in stop {
        stopped := true;
        return;
      }
      i := i + 1;
    }
    FeedNothing(lines, cursor, parse, stop, sent);
  }

  lemma AfterNothing(lines: seq<seq<Byte>>, whole: Fed)
    ensures After([], whole) == whole && lines[0..] == lines
  {
    assert [] + whole.events == whole.events;
  }

  lemma FeedNothing(lines: seq<seq<Byte>>, cursor: nat, parse: Parser, stop: set<string>, sent: seq<Event>)
    ensures After(sent, FeedLines(lines[|lines|..], cursor, parse, stop)) == Fed(sent, cursor, [], false)
  {
    assert sent + [] == sent;
  }

  class Tailer {
    const parse: Parser
    const stop: set<string>
    var cursor: nat
    var buffer: seq<Byte>
    var position: nat
    var sent: seq<Event>
    var stopped: bool

    function State(): Reader
      reads this
    {
      Reader(position, cursor, buffer, sent, stopped)
    }

    constructor (parse: Parser, stop: set<string>, startOffset: int, size: nat)
      ensures this.parse == parse && this.stop == stop && State() == StartAt(startOffset, size)
    {
      this.parse, this.stop := parse, stop;
      var start: nat := Min(Max(0, startOffset), size);
      cursor, position, buffer, sent, stopped := start, start, [], [], false;
    }

    method ReadFrom(log: seq<Byte>, size: nat)
      requires position <= |log|
      modifies this
      ensures State() == ReadOnce(log, old(State()), size, parse, stop)
    {
      var chunk := log[position..Min(position + size, |log|)];
      if !stopped && chunk != [] {
        var lines := SplitLines(buffer + chunk);
        var events, at, rest, end := Feed(lines, cursor, parse, stop);
        FetchOnce(log, State(), size, parse, stop, chunk, buffer + chunk, Fed(events, at, rest, end));
        position, cursor, buffer, sent, stopped := position + |chunk|, at, rest, sent + events, end;
      }
    }

    method StartOver(log: seq<Byte>)
      requires position <= |log|
      modifies this
      ensures State() == Reopened(log, old(State()))
    {
      if !stopped {
        cursor := Min(cursor, |log|);
        buffer, position := [], cursor;
      }
    }
  }

  /** Tailing a log while it is written, whatever is written and whenever it is read. */
  method Tail(log0: seq<Byte>, startOffset: int, ops: seq<Op>, parse: Parser, stop: set<string>) returns (log: seq<Byte>, reader: Reader)
    ensures Tailing(log, reader) == Run(Tailing(log0, StartAt(startOffset, |log0|)), ops, parse, stop)
  {
    var tailer := new Tailer(parse, stop, startOffset, |log0|);
    ghost var t0 := Tailing(log0, tailer.State());
    log := log0;
    assert ops[..0] == [];
    var i := 0;
    while i < |ops|
      invariant 0 <= i <= |ops| && tailer.position <= |log|
      invariant tailer.parse == parse && tailer.stop == stop
      invariant Tailing(log, tailer.State()) == Run(t0, ops[..i], parse, stop)
    {
      RunOneMore(t0, ops, i, parse, stop);
      match ops[i] {
        case Append(bytes) => log := log + bytes;
        case Read(size) => tailer.ReadFrom(log, size);
        case Reopen => tailer.StartOver(log);
      }
      i := i + 1;
    }
    assert ops[..i] == ops;
    reader := tailer.State();
  }

  /** What the reader keeps while it follows a log. */
  ghost predicate Following(t: Tailing, start: nat, parse: Parser, stop: set<string>) {
    var r := t.reader;
    && Exact(t.log, start, r.position, r.sent, r.stopped, parse, stop)
    && (!r.stopped ==> Kept(t.log, start, r.position, r.cursor, r.buffer))
  }

  lemma AppendFollows(t: Tailing, start: nat, bytes: seq<Byte>, parse: Parser, stop: set<string>)
    requires Following(t, start, parse, stop)
    ensures Following(t.(log := t.log + bytes), start, parse, stop)
  {
    assert (t.log + bytes)[start..t.reader.position] == t.log[start..t.reader.position];
  }

  lemma ReadFollows(t: Tailing, start: nat, size: nat, parse: Parser, stop: set<string>, next: Reader)
    requires NoBareCr(t.log) && t.reader.position <= |t.log| && Following(t, start, parse, stop)
    requires next == ReadOnce(t.log, t.reader, size, parse, stop)
    ensures Following(Tailing(t.log, next), start, parse, stop)
  {
    var r := t.reader;
    var chunk := t.log[r.position..Min(r.position + size, |t.log|)];
    if !r.stopped && chunk != [] {
      var fed := FeedLines(SplitLines(r.buffer + chunk), r.cursor, parse, stop);
      FetchOnce(t.log, r, size, parse, stop, chunk, r.buffer + chunk, fed);
      ReadSome(t, start, chunk, fed, parse, stop, next);
    }
  }

  lemma ReadSome(t: Tailing, start: nat, chunk: seq<Byte>, fed: Fed, parse: Parser, stop: set<string>, next: Reader)
    requires NoBareCr(t.log) && !t.reader.stopped && Following(t, start, parse, stop)
    requires t.reader.position + |chunk| <= |t.log| && chunk == t.log[t.reader.position..t.reader.position + |chunk|]
    requires fed == FeedLines(SplitLines(t.reader.buffer + chunk), t.reader.cursor, parse, stop)
    requires next == Fetched(t.reader, |chunk|, fed)
    ensures Following(Tailing(t.log, next), start, parse, stop)
  {
    var r := t.reader;
    ReadIsExact(t.log, start, r.position, r.cursor, r.buffer, r.sent, next.position, fed, parse, stop);
    FetchFollows(t.log, start, next, next.sent, fed, parse, stop);
  }

  lemma FetchFollows(log: seq<Byte>, start: nat, r: Reader, sent: seq<Event>, fed: Fed, parse: Parser, stop: set<string>)
    requires Exact(log, start, r.position, sent, fed.stopped, parse, stop)
    requires !fed.stopped ==> Kept(log, start, r.position, fed.cursor, fed.buffer)
    requires r == Reader(r.position, fed.cursor, fed.buffer, sent, fed.stopped)
    ensures Following(Tailing(log, r), start, parse, stop)
  {
  }

  lemma ReopenFollows(t: Tailing, start: nat, parse: Parser, stop: set<string>, next: Reader)
    requires t.reader.position <= |t.log| && Following(t, start, parse, stop) && next == Reopened(t.log, t.reader)
    ensures Following(Tailing(t.log, next), start, parse, stop)
  {
    var r := t.reader;
    if !r.stopped {
      KeptPosition(t.log, start, r.position, r.cursor, r.buffer);
      ReopenIsExact(t.log, start, r.position, r.cursor, r.buffer, r.sent, parse, stop);
      assert next == Reader(r.cursor, r.cursor, [], r.sent, false);
      FetchFollows(t.log, start, Reader(r.cursor, r.cursor, [], r.sent, false), r.sent, Fed([], r.cursor, [], false), parse, stop);
    }
  }

  lemma OpFollows(t: Tailing, op: Op, start: nat, parse: Parser, stop: set<string>)
    requires NoBareCr(t.log) && t.reader.position <= |t.log| && Following(t, start, parse, stop)
    ensures Following(OneOp(t, op, parse, stop), start, parse, stop)
  {
    match op
    case Append(bytes) => AppendFollows(t, start, bytes, parse, stop);
    case Read(size) => ReadFollows(t, start, size, parse, stop, ReadOnce(t.log, t.reader, size, parse, stop));
    case Reopen => ReopenFollows(t, start, parse, stop, Reopened(t.log, t.reader));
  }

  lemma NoBareCrPrefix(a: seq<Byte>, b: seq<Byte>)
    requires a <= b
    ensures NoBareCr(b) ==> NoBareCr(a)
  {
    if NoBareCr(b) {
      NoBareCrSlice(b, 0, |a|);
      assert b[0..|a|] == a;
    }
  }

  /** For any interleaving of appends, reads of any size and reopenings, what has been sent is
      what the complete lines between the start offset and the handle hold, in order, each
      identified by the offset of its end, up to the first stop event.  So neither chunk sizes
      nor timing show. */
  lemma {:induction false} TailIsExact(t: Tailing, start: nat, ops: seq<Op>, parse: Parser, stop: set<string>, u: Tailing)
    requires t.reader.position <= |t.log| && Following(t, start, parse, stop)
    requires u == Run(t, ops, parse, stop) && NoBareCr(u.log)
    ensures Following(u, start, parse, stop)
    decreases |ops|
  {
    if ops != [] {
      var before := Run(t, ops[..|ops| - 1], parse, stop);
      NoBareCrPrefix(before.log, u.log);
      TailIsExact(t, start, ops[..|ops| - 1], parse, stop, before);
      OpFollows(before, ops[|ops| - 1], start, parse, stop);
    }
  }

  lemma StartFollows(log: seq<Byte>, offset: int, parse: Parser, stop: set<string>)
    ensures Following(Tailing(log, StartAt(offset, |log|)), Min(Max(0, offset), |log|), parse, stop)
  {
    var start := Min(Max(0, offset), |log|);
    assert log[start..start] == [];
  }

  // ----- Only logs without a bare carriage return are followed

  /** What a history that writes this log sends is what the reference finds up to the handle. */
  ghost predicate SendsReference(log: seq<Byte>, ops: seq<Op>, parse: Parser, stop: set<string>) {
    var u := Run(Tailing([], StartAt(0, 0)), ops, parse, stop);
    u.log == log ==> u.reader.sent == UntilStop(LineEvents(log[..u.reader.position], 0, parse), stop)
  }

  /** Every line has an event. */
  function AnyEvent(): Parser {
    Parsed(text => Some(""))
  }

  function LineFeeds(bs: seq<Byte>): nat {
    if bs == [] then 0 else LineFeeds(bs[..|bs| - 1]) + if bs[|bs| - 1] == LF then 1 else 0
  }

  lemma {:induction false} OneEventPerLine(bs: seq<Byte>, base: nat)
    ensures |LineEvents(bs, base, AnyEvent())| == LineFeeds(bs)
  {
    if bs != [] {
      OneEventPerLine(bs[..|bs| - 1], base);
    }
  }

  lemma {:induction false} LineFeedsOfAppend(a: seq<Byte>, b: seq<Byte>)
    ensures LineFeeds(a + b) == LineFeeds(a) + LineFeeds(b)
  {
    if b == [] {
      assert a + b == a;
    } else {
      assert (a + b)[..|a + b| - 1] == a + b[..|b| - 1];
      LineFeedsOfAppend(a, b[..|b| - 1]);
    }
  }

  lemma FeedFirst(line: seq<Byte>, lines: seq<seq<Byte>>, cursor: nat, parse: Parser, all: seq<seq<Byte>>)
    requires all == [line] + lines && parse(line).Some?
    ensures |FeedLines(all, cursor, parse, {}).events|
         == if EndsInLf(line) then 1 + |FeedLines(lines, cursor + |line|, parse, {}).events| else 0
  {
    assert all[0] == line && all[1..] == lines;
  }

  /** How many events the loop sends of some lines. */
  function Sent(lines: seq<seq<Byte>>, cursor: nat, parse: Parser): nat {
    |FeedLines(lines, cursor, parse, {}).events|
  }

  /** A bare carriage return before the last line feed costs at least one event. */
  lemma {:induction false} BareCrCostsEvents(bs: seq<Byte>, lines: seq<seq<Byte>>, cursor: nat, parse: Parser)
    requires lines == SplitLines(bs) && (bs == [] || EndsInLf(bs)) && forall line :: parse(line).Some?
    ensures Sent(lines, cursor, parse) <= LineFeeds(bs) && (!NoBareCr(bs) ==> Sent(lines, cursor, parse) < LineFeeds(bs))
    decreases |bs|
  {
    if bs != [] {
      var line, tail, rest := FirstLine(bs, lines);
      BareCrCostsEvents(tail, rest, cursor + |line|, parse);
      CostStep(bs, line, tail, lines, rest, cursor, parse, Sent(rest, cursor + |line|, parse));
    }
  }

  lemma CostStep(bs: seq<Byte>, line: seq<Byte>, tail: seq<Byte>, lines: seq<seq<Byte>>, rest: seq<seq<Byte>>, cursor: nat, parse: Parser, later: nat)
    requires EndsInLf(bs) && bs == line + tail && lines == [line] + rest && parse(line).Some? && later == Sent(rest, cursor + |line|, parse)
    requires EndsInLf(line) ==> (NoBareCr(bs) <==> NoBareCr(tail))
    requires later <= LineFeeds(tail) && (!NoBareCr(tail) ==> later < LineFeeds(tail))
    ensures Sent(lines, cursor, parse) <= LineFeeds(bs) && (!NoBareCr(bs) ==> Sent(lines, cursor, parse) < LineFeeds(bs))
  {
    FeedFirst(line, rest, cursor, parse, lines);
    FeedsOfFirst(bs, line, tail);
  }

  lemma FeedsOfFirst(bs: seq<Byte>, line: seq<Byte>, tail: seq<Byte>)
    requires bs == line + tail && EndsInLf(bs)
    ensures 0 < LineFeeds(bs) && LineFeeds(tail) + (if EndsInLf(line) then 1 else 0) <= LineFeeds(bs)
  {
    LineFeedsOfAppend(line, tail);
    LastCounts(bs);
    if EndsInLf(line) {
      LastCounts(line);
    }
  }

  lemma LastCounts(bs: seq<Byte>)
    requires EndsInLf(bs)
    ensures 0 < LineFeeds(bs)
  {
  }

  lemma TwoOps(t: Tailing, a: Op, b: Op, parse: Parser, stop: set<string>)
    requires t.reader.position <= |t.log|
    ensures Run(t, [a, b], parse, stop) == OneOp(OneOp(t, a, parse, stop), b, parse, stop)
  {
    var ops := [a, b];
    assert ops[..0] == [] && ops[..2] == ops;
    RunOneMore(t, ops, 0, parse, stop);
    RunOneMore(t, ops, 1, parse, stop);
  }

  lemma WholeSlice(log: seq<Byte>)
    ensures log[0..|log|] == log && [] + log == log && log[..|log|] == log
  {
  }

  lemma OneReadSends(log: seq<Byte>, parse: Parser, fed: Fed, r: Reader)
    requires log != [] && r == Reader(0, 0, [], [], false) && fed == FeedLines(SplitLines(log), r.cursor, parse, {})
    ensures ReadOnce(log, r, |log|, parse, {}) == Fetched(r, |log|, fed)
  {
    WholeSlice(log);
    FetchOnce(log, r, |log|, parse, {}, log, log, fed);
  }

  lemma FetchOnce(log: seq<Byte>, r: Reader, size: nat, parse: Parser, stop: set<string>, chunk: seq<Byte>, text: seq<Byte>, fed: Fed)
    requires r.position <= |log| && !r.stopped && chunk == log[r.position..Min(r.position + size, |log|)] && chunk != []
    requires text == r.buffer + chunk && fed == FeedLines(SplitLines(text), r.cursor, parse, stop)
    ensures ReadOnce(log, r, size, parse, stop) == Fetched(r, |chunk|, fed)
  {
  }

  lemma FewerSent(log: seq<Byte>, events: seq<Event>, sent: seq<Event>)
    requires Pending(log) == [] && !NoBareCr(log)
    requires events == LineEvents(log, 0, AnyEvent()) && sent == FeedLines(SplitLines(log), 0, AnyEvent(), {}).events
    ensures sent != UntilStop(events, {})
  {
    assert forall line :: AnyEvent()(line).Some?;
    BareCrCostsEvents(log, SplitLines(log), 0, AnyEvent());
    OneEventPerLine(log, 0);
    NoStop(events);
  }

  lemma WriteAndRead(log: seq<Byte>, t: Tailing, parse: Parser, fed: Fed)
    requires log != [] && t == Tailing([], Reader(0, 0, [], [], false)) && fed == FeedLines(SplitLines(log), 0, parse, {})
    ensures Run(t, [Append(log), Read(|log|)], parse, {}) == Tailing(log, Fetched(t.reader, |log|, fed))
  {
    WholeSlice(log);
    TwoOps(t, Append(log), Read(|log|), parse, {});
    OneReadSends(log, parse, fed, t.reader);
  }

  lemma FetchedFirst(r: Reader, n: nat, fed: Fed)
    requires r == Reader(0, 0, [], [], false)
    ensures Fetched(r, n, fed) == Reader(n, fed.cursor, fed.buffer, fed.events, fed.stopped)
  {
    assert [] + fed.events == fed.events;
  }

  lemma BareCrIsSeen(log: seq<Byte>, t: Tailing, u: Tailing, fed: Fed)
    requires Pending(log) == [] && !NoBareCr(log) && t == Tailing([], Reader(0, 0, [], [], false))
    requires u == Run(t, [Append(log), Read(|log|)], AnyEvent(), {}) && fed == FeedLines(SplitLines(log), 0, AnyEvent(), {})
    ensures u.log == log && u.reader.position == |log|
    ensures u.reader.sent != UntilStop(LineEvents(log, 0, AnyEvent()), {})
  {
    WriteAndRead(log, t, AnyEvent(), fed);
    FetchedFirst(t.reader, |log|, fed);
    FewerSent(log, LineEvents(log, 0, AnyEvent()), fed.events);
  }

  lemma {:induction false} NoStop(events: seq<Event>)
    ensures UntilStop(events, {}) == events
  {
    if events != [] {
      NoStop(events[1..]);
    }
  }

  lemma SendsUnlessBareCr(log: seq<Byte>, ops: seq<Op>, parse: Parser, stop: set<string>)
    requires NoBareCr(log)
    ensures SendsReference(log, ops, parse, stop)
  {
    var u := Run(Tailing([], StartAt(0, 0)), ops, parse, stop);
    if u.log == log {
      SendsWithoutBareCr(Tailing([], StartAt(0, 0)), ops, parse, stop, u);
    }
  }

  lemma BareCrRefutes(log: seq<Byte>)
    requires Pending(log) == [] && !NoBareCr(log)
    ensures !SendsReference(log, [Append(log), Read(|log|)], AnyEvent(), {})
  {
    var t, ops := Tailing([], StartAt(0, 0)), [Append(log), Read(|log|)];
    BareCrIsSeen(log, t, Run(t, ops, AnyEvent(), {}), FeedLines(SplitLines(log), 0, AnyEvent(), {}));
    WholeSlice(log);
  }

  /** A log of complete lines is sent as the reference says by every history that writes it and
      for every parser and set of stop events, exactly when it has no bare carriage return. */
  lemma SendsReferenceIff(log: seq<Byte>)
    requires Pending(log) == []
    ensures (forall ops, parse, stop :: SendsReference(log, ops, parse, stop)) <==> NoBareCr(log)
  {
    if NoBareCr(log) {
      forall ops: seq<Op>, parse: Parser, stop: set<string>
        ensures SendsReference(log, ops, parse, stop)
      {
        SendsUnlessBareCr(log, ops, parse, stop);
      }
    } else {
      BareCrRefutes(log);
    }
  }

  lemma SendsWithoutBareCr(t: Tailing, ops: seq<Op>, parse: Parser, stop: set<string>, u: Tailing)
    requires t == Tailing([], StartAt(0, 0)) && u == Run(t, ops, parse, stop) && NoBareCr(u.log)
    ensures u.reader.position <= |u.log| && u.reader.sent == UntilStop(LineEvents(u.log[..u.reader.position], 0, parse), stop)
  {
    StartFollows([], 0, parse, stop);
    TailIsExact(t, 0, ops, parse, stop, u);
    FollowingSends(u, parse, stop);
  }

  lemma FollowingSends(u: Tailing, parse: Parser, stop: set<string>)
    requires Following(u, 0, parse, stop)
    ensures u.reader.position <= |u.log| && u.reader.sent == UntilStop(LineEvents(u.log[..u.reader.position], 0, parse), stop)
  {
    assert u.log[0..u.reader.position] == u.log[..u.reader.position];
  }

  // ----- Resuming

  lemma EarlierEvent(before: seq<Event>, more: seq<Event>, events: seq<Event>, k: nat)
    requires events == before + more && k < |before|
    ensures events[k] == before[k] && events[..k + 1] == before[..k + 1]
  {
  }

  lemma LastEvent(bs: seq<Byte>, front: seq<Byte>, last: Byte, base: nat, parse: Parser, before: seq<Event>, events: seq<Event>, k: nat)
    requires bs == front + [last] && before == LineEvents(front, base, parse) && events == LineEvents(bs, base, parse)
    requires |before| <= k < |events|
    ensures events[k].id == base + |bs| && events[..k + 1] == events && Pending(bs) == []
  {
    LinesOfSnoc(front, last, base, parse, before, Pending(front));
    PendingOfByte(front, last);
  }

  lemma OneByteOn(bs: seq<Byte>, front: seq<Byte>, last: Byte, head: seq<Byte>, tail: seq<Byte>)
    requires bs == front + [last] && front == head + tail
    ensures bs == head + (tail + [last])
  {
  }

  /** An event stands at the end of its line: the bytes up to its id hold the events up to it. */
  lemma {:induction false} EventEndsItsLine(bs: seq<Byte>, base: nat, parse: Parser, events: seq<Event>, k: nat) returns (head: seq<Byte>, tail: seq<Byte>)
    requires events == LineEvents(bs, base, parse) && k < |events|
    ensures bs == head + tail && head != [] && events[k].id == base + |head|
    ensures LineEvents(head, base, parse) == events[..k + 1] && Pending(head) == []
  {
    var front, last := bs[..|bs| - 1], bs[|bs| - 1];
    var before := LineEvents(front, base, parse);
    assert bs == front + [last];
    if k < |before| {
      head, tail := EventEndsItsLine(front, base, parse, before, k);
      LinesOfSnoc(front, last, base, parse, before, Pending(front));
      EarlierEvent(before, ByteEvents(Pending(front), last, base + |front| + 1, parse), events, k);
      OneByteOn(bs, front, last, head, tail);
      tail := tail + [last];
    } else {
      LastEvent(bs, front, last, base, parse, before, events, k);
      head, tail := bs, [];
    }
  }

  lemma RestIsSuffix(events: seq<Event>, k: nat, rest: seq<Event>)
    requires k < |events| && events == events[..k + 1] + rest
    ensures rest == events[k + 1..]
  {
  }

  lemma RestOfEvents(bs: seq<Byte>, head: seq<Byte>, tail: seq<Byte>, base: nat, parse: Parser, events: seq<Event>, first: seq<Event>)
    requires bs == head + tail && events == LineEvents(bs, base, parse)
    requires LineEvents(head, base, parse) == first && Pending(head) == []
    ensures events == first + LineEvents(tail, base + |head|, parse)
  {
    LinesAfterWhole(head, tail, base, parse, first, LineEvents(tail, base + |head|, parse));
  }

  lemma TailOfLog(log: seq<Byte>, start: nat, head: seq<Byte>, tail: seq<Byte>)
    requires start <= |log| && log[start..] == head + tail
    ensures start + |head| <= |log| && tail == log[start + |head|..]
  {
  }

  lemma ResumeInBytes(bs: seq<Byte>, base: nat, parse: Parser, events: seq<Event>, k: nat) returns (head: seq<Byte>, rest: seq<Byte>)
    requires events == LineEvents(bs, base, parse) && k < |events|
    ensures bs == head + rest && head != [] && events[k].id == base + |head|
    ensures LineEvents(rest, events[k].id, parse) == events[k + 1..]
  {
    head, rest := EventEndsItsLine(bs, base, parse, events, k);
    RestOfEvents(bs, head, rest, base, parse, events, events[..k + 1]);
    RestIsSuffix(events, k, LineEvents(rest, base + |head|, parse));
  }

  /** Starting over from the id of any event that was sent yields exactly the events after it. */
  lemma ResumeIsSuffix(log: seq<Byte>, start: nat, bs: seq<Byte>, parse: Parser, events: seq<Event>, k: nat) returns (rest: seq<Byte>)
    requires start <= |log| && bs == log[start..] && events == LineEvents(bs, start, parse) && k < |events|
    ensures start < events[k].id <= |log| && rest == log[events[k].id..]
    ensures LineEvents(rest, events[k].id, parse) == events[k + 1..]
  {
    var head;
    head, rest := ResumeInBytes(bs, start, parse, events, k);
    TailOfLog(log, start, head, rest);
  }

  // ----- The writer

  /** A JSON text: line breaks inside its strings are escaped. */
  predicate OneLineText(record: seq<Byte>) {
    forall i :: 0 <= i < |record| ==> record[i] != LF && record[i] != CR
  }

  function LogOf(records: seq<seq<Byte>>): seq<Byte> {
    if records == [] then [] else LogOf(records[..|records| - 1]) + records[|records| - 1] + [LF]
  }

  class EventLog {
    var content: seq<Byte>
    ghost var records: seq<seq<Byte>>

    ghost predicate Valid()
      reads this
    {
      content == LogOf(records) && forall i :: 0 <= i < |records| ==> OneLineText(records[i])
    }

    constructor ()
      ensures Valid() && records == []
    {
      content, records := [], [];
    }

    /** `EventLog.append`. */
    method Append(record: seq<Byte>)
      requires Valid() && OneLineText(record)
      modifies this
      ensures Valid() && records == old(records) + [record] && content == old(content) + record + [LF]
    {
      content := content + record + [LF];
      records := records + [record];
    }
  }

  function RecordEvent(record: seq<Byte>, id: nat, json: Json): seq<Event> {
    match json(record)
    case None => []
    case Some(value) => [Event(record, if value == "" then "message" else value, value, id)]
  }

  /** The events a reader should see of written records. */
  function RecordEvents(records: seq<seq<Byte>>, json: Json): seq<Event> {
    if records == [] then []
    else
      var last := records[|records| - 1];
      RecordEvents(records[..|records| - 1], json) + RecordEvent(last, |LogOf(records)|, json)
  }

  lemma StripOne(text: seq<Byte>, last: Byte, line: seq<Byte>)
    requires (last == LF || last == CR) && line == text + [last]
    ensures Strip(line) == Strip(text)
  {
    assert line[..|line| - 1] == text;
  }

  lemma StripNone(text: seq<Byte>)
    requires text == [] || (text[|text| - 1] != LF && text[|text| - 1] != CR)
    ensures Strip(text) == text
  {
  }

  /** A line loses its end, a line feed or both, and nothing else. */
  lemma LineEndIsStripped(text: seq<Byte>, end: seq<Byte>, line: seq<Byte>, id: nat, json: Json)
    requires (end == [LF] || end == [CR, LF]) && line == text + end
    requires text == [] || (text[|text| - 1] != LF && text[|text| - 1] != CR)
    ensures Strip(line) == text && EventOf(line, id, Parsed(json)) == RecordEvent(text, id, json)
  {
    StripNone(text);
    if end == [CR, LF] {
      StripOne(text, CR, text + [CR]);
      StripOne(text + [CR], LF, line);
    } else {
      StripOne(text, LF, line);
    }
  }

  lemma StripLine(record: seq<Byte>)
    requires OneLineText(record)
    ensures Strip(record + [LF]) == record
  {
    assert (record + [LF])[..|record|] == record;
  }

  lemma WrittenEvent(record: seq<Byte>, line: seq<Byte>, id: nat, json: Json)
    requires OneLineText(record) && line == record + [LF]
    ensures EventOf(line, id, Parsed(json)) == RecordEvent(record, id, json)
  {
    StripLine(record);
  }

  lemma WrittenLine(record: seq<Byte>, line: seq<Byte>, base: nat, json: Json)
    requires OneLineText(record) && line == record + [LF]
    ensures LineEvents(line, base, Parsed(json)) == RecordEvent(record, base + |record| + 1, json)
  {
    assert line[..|line| - 1] == record;
    OneLine(line, base, Parsed(json));
    WrittenEvent(record, line, base + |line|, json);
  }

  /** What the writer appends is what the reader finds: one event per record that has one,
      with the very bytes written and the length of the log after it, and nothing pending. */
  lemma {:induction false} WrittenIsRead(records: seq<seq<Byte>>, log: seq<Byte>, json: Json)
    requires log == LogOf(records) && forall i :: 0 <= i < |records| ==> OneLineText(records[i])
    ensures LineEvents(log, 0, Parsed(json)) == RecordEvents(records, json) && Pending(log) == []
  {
    if records != [] {
      var earlier, last := records[..|records| - 1], records[|records| - 1];
      WrittenIsRead(earlier, LogOf(earlier), json);
      WrittenAfter(LogOf(earlier), last, last + [LF], log, json, RecordEvents(earlier, json));
    }
  }

  lemma WrittenAfter(front: seq<Byte>, record: seq<Byte>, line: seq<Byte>, log: seq<Byte>, json: Json, events: seq<Event>)
    requires OneLineText(record) && Pending(front) == [] && LineEvents(front, 0, Parsed(json)) == events
    requires line == record + [LF] && log == front + record + [LF]
    ensures LineEvents(log, 0, Parsed(json)) == events + RecordEvent(record, |log|, json) && Pending(log) == []
  {
    assert log == front + line;
    WrittenLine(record, line, |front|, json);
    LinesAfterWhole(front, line, 0, Parsed(json), events, RecordEvent(record, |log|, json));
  }

  predicate NoCr(bs: seq<Byte>) {
    forall i :: 0 <= i < |bs| ==> bs[i] != CR
  }

  /** So the log that the writer leaves never has a bare carriage return. */
  lemma {:induction false} WrittenHasNoCr(records: seq<seq<Byte>>)
    requires forall i :: 0 <= i < |records| ==> OneLineText(records[i])
    ensures NoCr(LogOf(records)) && NoBareCr(LogOf(records))
  {
    if records != [] {
      WrittenHasNoCr(records[..|records| - 1]);
    }
  }
}
