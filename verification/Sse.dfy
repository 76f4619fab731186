/** The event-stream reader of `relay.rs`. */
module Sse {
  import opened Common
  import opened Text

  // ---- Lines ----

  /** Position of the first line feed, or the length of the text. */
  function LineEnd(s: string): (n: nat)
    ensures n <= |s| && '\n' !in s[..n] && (n < |s| ==> s[n] == '\n')
  {
    if s == [] || s[0] == '\n' then 0 else 1 + LineEnd(s[1..])
  }

  function StripCr(s: string): string {
    if s != [] && s[|s| - 1] == '\r' then s[..|s| - 1] else s
  }

  /** Lines end with a line feed, and a carriage return before it goes too; a last unended line is kept as it is. */
  function Lines(s: string): seq<string>
    decreases |s|
  {
    if s == [] then []
    else
      var n := LineEnd(s);
      if n == |s| then [s] else [StripCr(s[..n])] + Lines(s[n + 1..])
  }

  function Join(lines: seq<string>): string {
    if lines == [] then [] else if |lines| == 1 then lines[0] else lines[0] + "\n" + Join(lines[1..])
  }

  // ---- The reader ----

  /** Events completed so far and the data lines of the one in progress. */
  datatype Progress = Progress(events: seq<string>, data: seq<string>)

  function Colon(line: string): (n: nat)
    ensures n <= |line| && ':' !in line[..n] && (n < |line| ==> line[n] == ':')
  {
    if line == [] || line[0] == ':' then 0 else 1 + Colon(line[1..])
  }

  function WithoutSpace(v: string): string { if StartsWith(v, " ") then v[1..] else v }

  function Closed(p: Progress): Progress {
    if p.data == [] then p else Progress(p.events + [Join(p.data)], [])
  }

  function Feed(p: Progress, line: string): Progress {
    if line == [] then Closed(p)
    else if line[0] == ':' then p
    else
      var n := Colon(line);
      if n == |line| || line[..n] != "data" then p
      else p.(data := p.data + [WithoutSpace(line[n + 1..])])
  }

  function FeedAll(p: Progress, lines: seq<string>): Progress
    decreases lines
  {
    if lines == [] then p else FeedAll(Feed(p, lines[0]), lines[1..])
  }

  function Events(body: string): seq<string> { Closed(FeedAll(Progress([], []), Lines(body))).events }

  method ParseSse(body: string) returns (events: seq<string>)
    ensures events == Events(body)
  {
    var lines := Lines(body);
    events := [];
    var data: seq<string> := [];
    for i := 0 to |lines|
      invariant FeedAll(Progress(events, data), lines[i..]) == FeedAll(Progress([], []), lines)
    {
      var line := lines[i];
      assert lines[i..][0] == line && lines[i..][1..] == lines[i + 1..];
      if line == [] {
        if data != [] {
          events := events + [Join(data)];
          data := [];
        }
        continue;
      }
      if line[0] == ':' {
        continue;
      }
      var n := Colon(line);
      if n == |line| {
        continue;
      }
      if line[..n] != "data" {
        continue;
      }
      data := data + [WithoutSpace(line[n + 1..])];
    }
    if data != [] {
      events := events + [Join(data)];
    }
  }

  // ---- What each line does ----

  /** Only a blank line and a `data:` line count; comments, other fields and lines without a colon do not. */
  lemma WhatALineDoes(p: Progress, line: string, v: string)
    ensures Feed(p, "") == if p.data == [] then p else Progress(p.events + [Join(p.data)], [])
    ensures line != "" && !("data:" <= line) ==> Feed(p, line) == p
    ensures Feed(p, "data:" + v) == p.(data := p.data + [if " " <= v then v[1..] else v])
  {
    var n := Colon(line);
    assert n < |line| && line[..n] == "data" ==> line[..5] == "data" + [line[4]];
    ColonAt("data", v);
    assert "data:" + v == "data" + ":" + v;
    assert ("data" + ":" + v)[..4] == "data" && ("data" + ":" + v)[5..] == v;
  }

  /** A carriage return before the line feed is part of the line end; the last line needs none. */
  lemma HowLinesEnd(l: string, rest: string)
    requires '\n' !in l
    ensures Lines(l + "\r\n" + rest) == [l] + Lines(rest)
    ensures l != "" ==> Lines(l) == [l]
  {
    var cr := l + "\r";
    LineEndAt(cr, rest);
    assert l + "\r\n" + rest == cr + "\n" + rest;
    assert (cr + "\n" + rest)[..|cr|] == cr && (cr + "\n" + rest)[|cr| + 1..] == rest;
    assert cr[..|l|] == l;
  }

  // ---- Round trip ----

  /** A line that survives line splitting. */
  predicate IsClean(l: string) { '\n' !in l && (l == [] || l[|l| - 1] != '\r') }

  ghost predicate IsEvent(e: seq<string>) { e != [] && forall i :: 0 <= i < |e| ==> IsClean(e[i]) }

  function DataLine(l: string): string { "data: " + l }

  /** Joined lines can be told apart again. */
  lemma {:induction false} JoinedLinesSplit(e: seq<string>)
    requires IsEvent(e)
    ensures Lines(Join(e) + "\n") == e
    decreases |e|
  {
    var l, more := e[0], e[1..];
    assert IsClean(l) && e == [l] + more;
    if more == [] {
      FirstLine(l, []);
      assert l + "\n" + [] == l + "\n" && Lines([]) == [];
    } else {
      forall i | 0 <= i < |more| ensures IsClean(more[i]) { assert more[i] == e[i + 1]; }
      JoinedLinesSplit(more);
      FirstLine(l, Join(more) + "\n");
      assert Join(e) + "\n" == l + "\n" + (Join(more) + "\n");
    }
  }

  /** An event in print: one `data:` line per line, then a blank one. */
  function PrintLines(e: seq<string>): string {
    if e == [] then "\n" else DataLine(e[0]) + "\n" + PrintLines(e[1..])
  }

  function PrintEvents(events: seq<seq<string>>): string {
    if events == [] then [] else PrintLines(events[0]) + PrintEvents(events[1..])
  }

  lemma {:induction false} LineEndAt(l: string, rest: string)
    requires '\n' !in l
    ensures LineEnd(l + "\n" + rest) == |l|
  {
    var s := l + "\n" + rest;
    if l != [] {
      LineEndAt(l[1..], rest);
      assert s[1..] == l[1..] + "\n" + rest;
      assert s[0] == l[0] && l[0] in l;
    }
  }

  lemma FirstLine(l: string, rest: string)
    requires IsClean(l)
    ensures Lines(l + "\n" + rest) == [l] + Lines(rest)
  {
    var s := l + "\n" + rest;
    LineEndAt(l, rest);
    assert s[..|l|] == l && s[|l| + 1..] == rest;
  }

  lemma DataLineFeeds(p: Progress, l: string)
    ensures Feed(p, DataLine(l)) == p.(data := p.data + [l])
  {
    var line := DataLine(l);
    assert line[0] == 'd' && line[1] == 'a' && line[2] == 't' && line[3] == 'a' && line[4] == ':' && line[5] == ' ';
    ColonAt("data", " " + l);
    assert line == "data" + ":" + (" " + l);
    assert line[..4] == "data" && line[5..] == " " + l && (" " + l)[..1] == " " && (" " + l)[1..] == l;
  }

  lemma {:induction false} ColonAt(field: string, value: string)
    requires ':' !in field
    ensures Colon(field + ":" + value) == |field|
  {
    var s := field + ":" + value;
    if field != [] {
      ColonAt(field[1..], value);
      assert s[1..] == field[1..] + ":" + value;
      assert s[0] == field[0] && field[0] in field;
    }
  }

  lemma DataLineIsClean(l: string)
    requires IsClean(l)
    ensures IsClean(DataLine(l))
  {
    var line := DataLine(l);
    assert l == [] ==> line[|line| - 1] == ' ';
    assert l != [] ==> line[|line| - 1] == l[|l| - 1];
  }

  lemma DataLineStep(p: Progress, l: string, tail: string)
    requires IsClean(l)
    ensures FeedAll(p, Lines(DataLine(l) + "\n" + tail)) == FeedAll(p.(data := p.data + [l]), Lines(tail))
  {
    DataLineIsClean(l);
    FirstLine(DataLine(l), tail);
    DataLineFeeds(p, l);
    FeedFirst(p, DataLine(l), Lines(tail));
  }

  lemma BlankLineStep(p: Progress, tail: string)
    ensures FeedAll(p, Lines("\n" + tail)) == FeedAll(Closed(p), Lines(tail))
  {
    assert [] + "\n" + tail == "\n" + tail;
    FirstLine([], tail);
    FeedFirst(p, [], Lines(tail));
  }

  lemma EmptyEventStep(p: Progress, rest: string)
    requires p.data != []
    ensures p.data + [] == p.data
    ensures FeedAll(p, Lines(PrintLines([]) + rest)) == FeedAll(Progress(p.events + [Join(p.data)], []), Lines(rest))
  {
    BlankLineStep(p, rest);
  }

  lemma FeedFirst(p: Progress, line: string, lines: seq<string>)
    ensures FeedAll(p, [line] + lines) == FeedAll(Feed(p, line), lines)
  {
    assert ([line] + lines)[1..] == lines;
  }

  /** Reading one printed event completes exactly that event. */
  lemma {:induction false} EventIsRead(p: Progress, e: seq<string>, rest: string)
    requires forall i :: 0 <= i < |e| ==> IsClean(e[i])
    requires p.data + e != []
    ensures FeedAll(p, Lines(PrintLines(e) + rest))
            == FeedAll(Progress(p.events + [Join(p.data + e)], []), Lines(rest))
    decreases e
  {
    if e == [] {
      EmptyEventStep(p, rest);
    } else {
      var l, more := e[0], e[1..];
      var next := Progress(p.events, p.data + [l]);
      HeadAndRest(p.data, e);
      PrintSplits(l, more, rest);
      DataLineStep(p, l, PrintLines(more) + rest);
      EventIsRead(next, more, rest);
    }
  }

  lemma HeadAndRest(before: seq<string>, e: seq<string>)
    requires e != []
    ensures e == [e[0]] + e[1..] && before + [e[0]] + e[1..] == before + e
  {
  }

  lemma PrintSplits(l: string, more: seq<string>, rest: string)
    ensures PrintLines([l] + more) + rest == DataLine(l) + "\n" + (PrintLines(more) + rest)
  {
    assert ([l] + more)[1..] == more;
  }

  lemma {:induction false} EventsAreRead(done: seq<string>, events: seq<seq<string>>)
    requires forall i :: 0 <= i < |events| ==> IsEvent(events[i])
    ensures FeedAll(Progress(done, []), Lines(PrintEvents(events))) == Progress(done + Map(events, Join), [])
    decreases events
  {
    if events == [] {
      assert done + Map(events, Join) == done;
    } else {
      var e, rest := events[0], events[1..];
      assert IsEvent(e) && events == [e] + rest;
      NextEvent(done, e, rest);
      EventsAreRead(done + [Join(e)], rest);
      JoinedAppend(done, e, rest);
    }
  }

  lemma NextEvent(done: seq<string>, e: seq<string>, rest: seq<seq<string>>)
    requires IsEvent(e)
    ensures FeedAll(Progress(done, []), Lines(PrintEvents([e] + rest)))
            == FeedAll(Progress(done + [Join(e)], []), Lines(PrintEvents(rest)))
  {
    assert ([e] + rest)[1..] == rest && [] + e == e;
    EventIsRead(Progress(done, []), e, PrintEvents(rest));
  }

  lemma MapFront(e: seq<string>, rest: seq<seq<string>>)
    ensures Map([e] + rest, Join) == [Join(e)] + Map(rest, Join)
  {
  }

  lemma JoinedAppend(done: seq<string>, e: seq<string>, rest: seq<seq<string>>)
    ensures done + [Join(e)] + Map(rest, Join) == done + Map([e] + rest, Join)
    ensures [e] + rest != []
  {
    MapFront(e, rest);
    assert done + [Join(e)] + Map(rest, Join) == done + ([Join(e)] + Map(rest, Join));
  }

  /** Every printed list of events is read back, in order, each with its lines joined. */
  lemma SseRoundTrip(events: seq<seq<string>>)
    requires forall i :: 0 <= i < |events| ==> IsEvent(events[i])
    ensures Events(PrintEvents(events)) == Map(events, Join)
  {
    EventsAreRead([], events);
    assert [] + Map(events, Join) == Map(events, Join);
  }
}
