/**
 * The relay of `relay.rs` as a state machine: a reader that spawns a task per message, a channel of 64
 * lines, one writer, and a drain at the end of input. Every interleaving is a run of `Do`.
 */
module Relay {
  import opened Common

  const CHANNEL_CAPACITY: nat := 64
  const MAX_IN_FLIGHT: nat := 64

  /** An input line that is not blank: not JSON, JSON without an `id`, or JSON with one. */
  datatype Message = Unparsable | Notification | Request(id: nat)

  /** What the endpoint answered; a document that is not JSON is `None`. */
  datatype Outcome =
    | Failed
    | EmptyReply
    | Body(document: Option<string>)
    | Stream(events: seq<Option<string>>)

  datatype Line = ErrorLine(id: Option<nat>) | Document(text: string)

  function EventLine(e: Option<string>): seq<Line> {
    if e.Some? then [Document(e.value)] else []
  }

  /** The lines one message puts on stdout, in order. */
  function LinesFor(m: Message, o: Outcome): seq<Line> {
    match m
    case Unparsable => [ErrorLine(None)]
    case Notification => []
    case Request(id) => (
      match o
      case Failed => [ErrorLine(Some(id))]
      case EmptyReply => [ErrorLine(Some(id))]
      case Body(d) => if d.Some? then [Document(d.value)] else [ErrorLine(Some(id))]
      case Stream(events) =>
        var lines := Concat(events, EventLine);
        if lines == [] then [ErrorLine(Some(id))] else lines)
  }

  // ---- What the lines carry ----

  function JsonEvent(e: Option<string>): seq<string> { if e.Some? then [e.value] else [] }

  /** The JSON documents the endpoint answered with: its body, or the events of its stream. */
  function JsonOf(o: Outcome): seq<string> {
    match o
    case Failed => []
    case EmptyReply => []
    case Body(d) => JsonEvent(d)
    case Stream(events) => Concat(events, JsonEvent)
  }

  function TextOf(l: Line): seq<string> { if l.Document? then [l.text] else [] }

  /** The documents among the lines, in order. */
  function Texts(lines: seq<Line>): seq<string> { Concat(lines, TextOf) }

  /**
   * `lines` answer the message. A request gets exactly the JSON documents of the outcome, in order, and an error
   * under its own id, one, if and only if there is no such document.
   */
  ghost predicate Answers(m: Message, o: Outcome, lines: seq<Line>) {
    match m
    case Unparsable => lines == [ErrorLine(None)]
    case Notification => lines == []
    case Request(id) =>
      && Texts(lines) == JsonOf(o)
      && (forall l :: l in lines && l.ErrorLine? ==> l.id == Some(id))
      && ((exists l :: l in lines && l.ErrorLine?) <==> JsonOf(o) == [])
      && (JsonOf(o) == [] ==> |lines| == 1)
  }

  lemma {:induction false} EventLinesCarryTheEvents(events: seq<Option<string>>)
    ensures Texts(Concat(events, EventLine)) == Concat(events, JsonEvent)
    ensures forall l :: l in Concat(events, EventLine) ==> l.Document?
    ensures Concat(events, EventLine) == [] <==> Concat(events, JsonEvent) == []
  {
    if events != [] {
      var n := |events| - 1;
      EventLinesCarryTheEvents(events[..n]);
      ConcatAppend(Concat(events[..n], EventLine), EventLine(events[n]), TextOf);
      if events[n].Some? { OneLine(Document(events[n].value)); }
    }
  }

  lemma OneLine(l: Line)
    ensures Texts([l]) == TextOf(l)
  {
    assert [l][..0] == [];
    assert Concat([l][..0], TextOf) == [];
  }

  lemma LinesAnswer(m: Message, o: Outcome)
    ensures Answers(m, o, LinesFor(m, o))
  {
    if m.Request? {
      OneLine(ErrorLine(Some(m.id)));
      assert ErrorLine(Some(m.id)) in [ErrorLine(Some(m.id))];
      match o {
        case Body(d) => if d.Some? { OneLine(Document(d.value)); }
        case Stream(events) => EventLinesCarryTheEvents(events);
        case _ =>
      }
    }
  }

  /** `Connector::handle`, with the lines it sends collected. */
  method Handle(m: Message, o: Outcome) returns (lines: seq<Line>)
    ensures lines == LinesFor(m, o)
    ensures Answers(m, o, lines)
  {
    LinesAnswer(m, o);
    lines := [];
    match m
    case Unparsable => lines := lines + [ErrorLine(None)];
    case Notification =>
    case Request(id) =>
      match o
      case Failed => lines := lines + [ErrorLine(Some(id))];
      case EmptyReply => lines := lines + [ErrorLine(Some(id))];
      case Body(d) => lines := lines + [if d.Some? then Document(d.value) else ErrorLine(Some(id))];
      case Stream(events) =>
        var forwarded := 0;
        for i := 0 to |events|
          invariant lines == Concat(events[..i], EventLine) && forwarded == |lines|
        {
          ConcatSnoc(events[..i], events[i], EventLine);
          TakeNext(events, i);
          if events[i].Some? {
            lines := lines + [Document(events[i].value)];
            forwarded := forwarded + 1;
          }
        }
        assert events[..|events|] == events;
        if forwarded == 0 {
          lines := lines + [ErrorLine(Some(id))];
        }
  }

  /** Sections 4.1 and 5 of the JSON-RPC 2.0 specification, as line counts. */
  lemma LineCounts(m: Message, o: Outcome)
    ensures m.Unparsable? ==> |LinesFor(m, o)| == 1
    ensures m.Notification? ==> LinesFor(m, o) == []
    ensures m.Request? && !o.Stream? ==> |LinesFor(m, o)| == 1
    ensures m.Request? ==> |LinesFor(m, o)| >= 1
  {
  }

  // ---- The machine ----

  /** A task of the join set: waiting for its answer, sending what is left of its lines, or finished. */
  datatype Phase = Waiting | Sending(rest: seq<Line>) | Finished

  datatype Task = Task(id: nat, phase: Phase)

  /** A line and the message it answers. */
  datatype Tagged = Tagged(id: nat, line: Line)

  /** What became of each message so far, in the order they were read. */
  datatype Entry = Entry(message: Message, outcome: Option<Outcome>)

  datatype Main = Reading | Joining | Draining | AwaitingWriter | Returned

  datatype State = State(
    input: seq<Option<Message>>, main: Main, tasks: seq<Task>, log: seq<Entry>,
    sent: seq<Tagged>, queue: seq<Tagged>, output: seq<Tagged>, writing: bool, broken: bool)

  function Initial(input: seq<Option<Message>>): State {
    State(input, Reading, [], [], [], [], [], true, false)
  }

  datatype Action =
    | ReadLine
    | Join(slot: nat)
    | Close
    | Answer(slot: nat, outcome: Outcome)
    | Send(slot: nat)
    | Finish(slot: nat)
    | WriteLine(fails: bool)
    | EndWriter
    | Return

  predicate Enabled(s: State, a: Action) {
    match a
    case ReadLine => s.main.Reading?
    case Join(i) => (s.main.Joining? || s.main.Draining?) && i < |s.tasks| && s.tasks[i].phase.Finished?
    case Close => s.main.Draining? && s.tasks == []
    case Answer(i, _) => i < |s.tasks| && s.tasks[i].phase.Waiting? && s.tasks[i].id < |s.log|
    case Send(i) =>
      i < |s.tasks| && s.tasks[i].phase.Sending? && s.tasks[i].phase.rest != [] && |s.queue| < CHANNEL_CAPACITY
    case Finish(i) => i < |s.tasks| && s.tasks[i].phase.Sending? && s.tasks[i].phase.rest == []
    case WriteLine(_) => s.writing && s.queue != []
    case EndWriter =>
      // The channel is closed once the reader and every task have dropped their sender.
      s.writing && s.queue == [] && s.main.AwaitingWriter?
      && forall i :: 0 <= i < |s.tasks| ==> s.tasks[i].phase.Finished?
    case Return => s.main.AwaitingWriter? && !s.writing
  }

  function Without(tasks: seq<Task>, i: nat): seq<Task>
    requires i < |tasks|
  {
    tasks[..i] + tasks[i + 1..]
  }

  function Do(s: State, a: Action): State
    requires Enabled(s, a)
  {
    match a
    case ReadLine =>
      if s.input == [] then s.(main := Draining)
      else if s.input[0].None? then s.(input := s.input[1..])
      else
        var tasks := s.tasks + [Task(|s.log|, Waiting)];
        s.(input := s.input[1..], tasks := tasks, log := s.log + [Entry(s.input[0].value, None)],
           main := if |tasks| > MAX_IN_FLIGHT then Joining else Reading)
    case Join(i) =>
      s.(tasks := Without(s.tasks, i), main := if s.main.Joining? then Reading else s.main)
    case Close => s.(main := AwaitingWriter)
    case Answer(i, o) =>
      var t := s.tasks[i];
      s.(tasks := s.tasks[i := t.(phase := Sending(LinesFor(s.log[t.id].message, o)))],
         log := s.log[t.id := s.log[t.id].(outcome := Some(o))])
    case Send(i) =>
      var t := s.tasks[i];
      var line := Tagged(t.id, t.phase.rest[0]);
      s.(tasks := s.tasks[i := t.(phase := Sending(t.phase.rest[1..]))],
         sent := s.sent + [line], queue := s.queue + [line])
    case Finish(i) => s.(tasks := s.tasks[i := s.tasks[i].(phase := Finished)])
    case WriteLine(fails) =>
      if s.broken then s.(queue := s.queue[1..])
      else if fails then s.(queue := s.queue[1..], broken := true)
      else s.(queue := s.queue[1..], output := s.output + [s.queue[0]])
    case EndWriter => s.(writing := false)
    case Return => s.(main := Returned)
  }

  /** Every action of `run` is enabled where it is taken. */
  predicate IsRun(s: State, run: seq<Action>)
    decreases |run|
  {
    run == [] || (Enabled(s, run[0]) && IsRun(Do(s, run[0]), run[1..]))
  }

  function End(s: State, run: seq<Action>): State
    requires IsRun(s, run)
    decreases |run|
  {
    if run == [] then s else End(Do(s, run[0]), run[1..])
  }

  /** `s` is where some run of the relay over `input` arrives. */
  ghost predicate Reachable(input: seq<Option<Message>>, s: State) {
    exists run :: IsRun(Initial(input), run) && End(Initial(input), run) == s
  }

  // ---- Safety ----

  /** The lines of one message in a tagged list, in order. */
  function Of(lines: seq<Tagged>, id: nat): seq<Line> {
    if lines == [] then []
    else
      var n := |lines| - 1;
      Of(lines[..n], id) + if lines[n].id == id then [lines[n].line] else []
  }

  lemma OfSnoc(lines: seq<Tagged>, x: Tagged, id: nat)
    ensures Of(lines + [x], id) == Of(lines, id) + if x.id == id then [x.line] else []
  {
    assert (lines + [x])[..|lines|] == lines;
  }

  function Messages(input: seq<Option<Message>>): seq<Message> {
    if input == [] then []
    else (if input[0].Some? then [input[0].value] else []) + Messages(input[1..])
  }

  function MessageOf(e: Entry): Message { e.message }

  /** What a task still owes. */
  function Owed(t: Task): seq<Line> { if t.phase.Sending? then t.phase.rest else [] }

  /** What a message has sent, plus what its task owes, is exactly its lines once it is answered. */
  ghost predicate TaskAccounts(s: State, t: Task) {
    && t.id < |s.log|
    && (t.phase.Waiting? <==> s.log[t.id].outcome.None?)
    && (t.phase.Waiting? ==> Of(s.sent, t.id) == [])
    && (!t.phase.Waiting? ==>
          Of(s.sent, t.id) + Owed(t) == LinesFor(s.log[t.id].message, s.log[t.id].outcome.value))
  }

  ghost predicate HasTask(tasks: seq<Task>, id: nat) {
    exists i :: 0 <= i < |tasks| && tasks[i].id == id
  }

  /** A message whose task is gone has been answered in full. */
  ghost predicate Settled(s: State, id: nat)
    requires id < |s.log|
  {
    s.log[id].outcome.Some? && Of(s.sent, id) == LinesFor(s.log[id].message, s.log[id].outcome.value)
  }

  ghost predicate TasksAccount(s: State) {
    && (forall i :: 0 <= i < |s.tasks| ==> TaskAccounts(s, s.tasks[i]))
    && (forall i, j :: 0 <= i < j < |s.tasks| ==> s.tasks[i].id != s.tasks[j].id)
    && (forall id :: 0 <= id < |s.log| && !HasTask(s.tasks, id) ==> Settled(s, id))
  }

  /** Nothing is written that was not sent, in the order it was sent; while the writer works nothing is lost. */
  ghost predicate WriterKeepsOrder(s: State) {
    && s.output <= s.sent
    && (!s.broken ==> s.sent == s.output + s.queue)
    && (forall i :: 0 <= i < |s.sent| ==> s.sent[i].id < |s.log|)
  }

  predicate PhasesFit(s: State) {
    && (s.main.Reading? ==> |s.tasks| <= MAX_IN_FLIGHT)
    && (s.main.Joining? ==> |s.tasks| == MAX_IN_FLIGHT + 1)
    && (s.main.Draining? ==> s.input == [] && |s.tasks| <= MAX_IN_FLIGHT)
    && (s.main.AwaitingWriter? || s.main.Returned? ==> s.input == [] && s.tasks == [])
    && (s.main.Returned? ==> !s.writing)
    && (!s.writing ==> s.queue == [] && (s.main.AwaitingWriter? || s.main.Returned?))
    && |s.queue| <= CHANNEL_CAPACITY
  }

  ghost predicate Inv(input: seq<Option<Message>>, s: State) {
    && TasksAccount(s) && WriterKeepsOrder(s) && PhasesFit(s)
    && Messages(input) == Map(s.log, MessageOf) + Messages(s.input)
  }

  lemma PhasesStayFit(s: State, a: Action)
    requires PhasesFit(s) && Enabled(s, a)
    ensures PhasesFit(Do(s, a))
  {
  }

  lemma SendKeepsOrder(s: State, i: nat)
    requires WriterKeepsOrder(s) && Enabled(s, Send(i)) && s.tasks[i].id < |s.log|
    ensures WriterKeepsOrder(Do(s, Send(i)))
  {
    var line := Tagged(s.tasks[i].id, s.tasks[i].phase.rest[0]);
    assert s.output + (s.queue + [line]) == (s.output + s.queue) + [line];
    assert s.output <= s.sent + [line];
  }

  lemma WriteKeepsOrder(s: State, fails: bool)
    requires WriterKeepsOrder(s) && Enabled(s, WriteLine(fails))
    ensures WriterKeepsOrder(Do(s, WriteLine(fails)))
  {
    if !s.broken {
      assert s.output + s.queue == (s.output + [s.queue[0]]) + s.queue[1..];
    }
  }

  lemma WriterStaysInOrder(s: State, a: Action)
    requires WriterKeepsOrder(s) && TasksAccount(s) && Enabled(s, a)
    ensures WriterKeepsOrder(Do(s, a))
  {
    match a
    case Send(i) =>
      assert TaskAccounts(s, s.tasks[i]);
      SendKeepsOrder(s, i);
    case WriteLine(fails) => WriteKeepsOrder(s, fails);
    case _ =>
  }

  lemma LogStaysTrue(input: seq<Option<Message>>, s: State, a: Action)
    requires Enabled(s, a) && Messages(input) == Map(s.log, MessageOf) + Messages(s.input)
    requires forall i :: 0 <= i < |s.tasks| ==> s.tasks[i].id < |s.log|
    ensures Messages(input) == Map(Do(s, a).log, MessageOf) + Messages(Do(s, a).input)
  {
    match a
    case ReadLine =>
      if s.input != [] && s.input[0].Some? {
        var m := s.input[0].value;
        assert Map(s.log + [Entry(m, None)], MessageOf) == Map(s.log, MessageOf) + [m];
      }
    case Answer(i, o) =>
      var k := s.tasks[i].id;
      assert Map(s.log[k := s.log[k].(outcome := Some(o))], MessageOf) == Map(s.log, MessageOf);
    case _ =>
  }

  lemma HasTaskAppend(tasks: seq<Task>, t: Task, k: nat)
    ensures HasTask(tasks, k) ==> HasTask(tasks + [t], k)
  {
    if i :| 0 <= i < |tasks| && tasks[i].id == k {
      assert (tasks + [t])[i].id == k;
    }
  }

  lemma HasTaskWithout(tasks: seq<Task>, i: nat, k: nat)
    requires i < |tasks|
    ensures HasTask(tasks, k) ==> HasTask(Without(tasks, i), k) || tasks[i].id == k
  {
    if j :| 0 <= j < |tasks| && tasks[j].id == k && j != i {
      assert Without(tasks, i)[if j < i then j else j - 1].id == k;
    }
  }

  lemma SpawnAccounts(s: State, m: Message, main: Main, input: seq<Option<Message>>)
    requires TasksAccount(s) && forall i :: 0 <= i < |s.sent| ==> s.sent[i].id < |s.log|
    ensures TasksAccount(s.(input := input, tasks := s.tasks + [Task(|s.log|, Waiting)],
                            log := s.log + [Entry(m, None)], main := main))
  {
    var id := |s.log|;
    var t := s.(input := input, tasks := s.tasks + [Task(id, Waiting)], log := s.log + [Entry(m, None)], main := main);
    NothingSentYet(s.sent, id);
    forall i | 0 <= i < |t.tasks| ensures TaskAccounts(t, t.tasks[i]) {
      if i < |s.tasks| {
        assert TaskAccounts(s, s.tasks[i]);
      }
    }
    assert forall i :: 0 <= i < |s.tasks| ==> TaskAccounts(s, s.tasks[i]);
    forall k | 0 <= k < |t.log| && !HasTask(t.tasks, k) ensures Settled(t, k) {
      assert t.tasks[|s.tasks|].id == id;
      HasTaskAppend(s.tasks, Task(id, Waiting), k);
      assert Settled(s, k);
    }
  }

  lemma {:induction false} NothingSentYet(lines: seq<Tagged>, id: nat)
    requires forall i :: 0 <= i < |lines| ==> lines[i].id < id
    ensures Of(lines, id) == []
  {
    if lines != [] {
      NothingSentYet(lines[..|lines| - 1], id);
    }
  }

  lemma JoinAccounts(s: State, i: nat, main: Main)
    requires TasksAccount(s) && i < |s.tasks| && s.tasks[i].phase.Finished?
    ensures TasksAccount(s.(tasks := Without(s.tasks, i), main := main))
  {
    var t := s.(tasks := Without(s.tasks, i), main := main);
    assert TaskAccounts(s, s.tasks[i]);
    forall j | 0 <= j < |t.tasks| ensures TaskAccounts(t, t.tasks[j]) {
      assert TaskAccounts(s, s.tasks[if j < i then j else j + 1]);
    }
    forall k | 0 <= k < |t.log| && !HasTask(t.tasks, k) ensures Settled(t, k) {
      HasTaskWithout(s.tasks, i, k);
      if k == s.tasks[i].id {
        assert Of(s.sent, k) + [] == Of(s.sent, k);
      } else {
        assert Settled(s, k);
      }
    }
  }

  /** Replacing one task by another of the same message, with the log and the sent lines of no other changed. */
  lemma ReplaceAccounts(s: State, t: State, i: nat)
    requires TasksAccount(s) && i < |s.tasks| && |t.tasks| == |s.tasks| && |t.log| == |s.log|
    requires t.tasks[i].id == s.tasks[i].id && TaskAccounts(t, t.tasks[i])
    requires forall j :: 0 <= j < |s.tasks| && j != i ==> t.tasks[j] == s.tasks[j]
    requires forall k :: 0 <= k < |s.log| && k != s.tasks[i].id ==>
               t.log[k] == s.log[k] && Of(t.sent, k) == Of(s.sent, k)
    ensures TasksAccount(t)
  {
    var id := s.tasks[i].id;
    forall j | 0 <= j < |t.tasks| ensures TaskAccounts(t, t.tasks[j]) {
      if j != i {
        assert TaskAccounts(s, s.tasks[j]);
        assert s.tasks[j].id != id;
      }
    }
    assert forall j :: 0 <= j < |t.tasks| ==> t.tasks[j].id == s.tasks[j].id;
    forall k | 0 <= k < |t.log| && !HasTask(t.tasks, k) ensures Settled(t, k) {
      assert t.tasks[i].id == id;
      assert HasTask(s.tasks, k) ==> HasTask(t.tasks, k);
      assert Settled(s, k);
    }
  }

  lemma AnswerAccounts(s: State, i: nat, o: Outcome)
    requires TasksAccount(s) && Enabled(s, Answer(i, o))
    ensures TasksAccount(Do(s, Answer(i, o)))
  {
    var t := Do(s, Answer(i, o));
    assert TaskAccounts(s, s.tasks[i]);
    var lines := LinesFor(s.log[s.tasks[i].id].message, o);
    assert [] + lines == lines;
    ReplaceAccounts(s, t, i);
  }

  lemma SendAccounts(s: State, i: nat)
    requires TasksAccount(s) && Enabled(s, Send(i))
    ensures TasksAccount(Do(s, Send(i)))
  {
    var t := Do(s, Send(i));
    var id, rest := s.tasks[i].id, s.tasks[i].phase.rest;
    assert TaskAccounts(s, s.tasks[i]);
    forall k ensures Of(t.sent, k) == Of(s.sent, k) + if id == k then [rest[0]] else [] {
      OfSnoc(s.sent, Tagged(id, rest[0]), k);
    }
    assert (Of(s.sent, id) + [rest[0]]) + rest[1..] == Of(s.sent, id) + rest;
    forall k | 0 <= k < |s.log| && k != id ensures Of(t.sent, k) == Of(s.sent, k) {
      assert Of(s.sent, k) + [] == Of(s.sent, k);
    }
    ReplaceAccounts(s, t, i);
  }

  lemma TasksStayAccounted(s: State, a: Action)
    requires TasksAccount(s) && WriterKeepsOrder(s) && Enabled(s, a)
    ensures TasksAccount(Do(s, a))
  {
    match a
    case ReadLine =>
      if s.input != [] && s.input[0].Some? {
        SpawnAccounts(s, s.input[0].value, Do(s, a).main, s.input[1..]);
      } else {
        SameAccounts(s, Do(s, a));
      }
    case Join(i) => JoinAccounts(s, i, Do(s, a).main);
    case Answer(i, o) => AnswerAccounts(s, i, o);
    case Send(i) => SendAccounts(s, i);
    case Finish(i) =>
      assert TaskAccounts(s, s.tasks[i]);
      ReplaceAccounts(s, Do(s, a), i);
    case _ => SameAccounts(s, Do(s, a));
  }

  lemma SameAccounts(s: State, t: State)
    requires TasksAccount(s) && t.tasks == s.tasks && t.log == s.log && t.sent == s.sent
    ensures TasksAccount(t)
  {
    forall i | 0 <= i < |t.tasks| ensures TaskAccounts(t, t.tasks[i]) {
      assert TaskAccounts(s, s.tasks[i]);
    }
    forall k | 0 <= k < |t.log| && !HasTask(t.tasks, k) ensures Settled(t, k) {
      assert Settled(s, k);
    }
  }

  lemma {:induction false} RunKeepsInvariant(input: seq<Option<Message>>, s: State, run: seq<Action>)
    requires Inv(input, s) && IsRun(s, run)
    ensures Inv(input, End(s, run))
    decreases |run|
  {
    if run != [] {
      StepKeepsInvariant(input, s, run[0]);
      RunKeepsInvariant(input, Do(s, run[0]), run[1..]);
    }
  }

  lemma InvariantHolds(input: seq<Option<Message>>, s: State)
    requires Reachable(input, s)
    ensures Inv(input, s)
  {
    var run :| IsRun(Initial(input), run) && End(Initial(input), run) == s;
    assert Map([], MessageOf) + Messages(input) == Messages(input);
    RunKeepsInvariant(input, Initial(input), run);
  }

  lemma StepKeepsInvariant(input: seq<Option<Message>>, s: State, a: Action)
    requires Inv(input, s) && Enabled(s, a)
    ensures Inv(input, Do(s, a))
  {
    assert forall i :: 0 <= i < |s.tasks| ==> TaskAccounts(s, s.tasks[i]);
    TasksStayAccounted(s, a);
    WriterStaysInOrder(s, a);
    PhasesStayFit(s, a);
    LogStaysTrue(input, s, a);
  }

  /**
   * At most 64 messages are in flight whenever the reader is about to read, and it waits for one of 65 when it has
   * just read one too many. At most 64 lines are in the channel, and a task with a line sends it while there are fewer.
   */
  lemma BoundedInFlight(input: seq<Option<Message>>, s: State)
    requires Reachable(input, s)
    ensures s.main.Reading? ==> |s.tasks| <= 64
    ensures s.main.Joining? ==> |s.tasks| == 65
    ensures |s.queue| <= 64
    ensures forall i :: 0 <= i < |s.tasks| && Owed(s.tasks[i]) != [] ==> (Enabled(s, Send(i)) <==> |s.queue| < 64)
  {
    InvariantHolds(input, s);
  }

  /**
   * When the relay returns and the writer never broke, the output is a merge of whole lines: each message's
   * lines are there, complete and in their own order, and there are no others.
   */
  lemma OutputIsCompleteMerge(input: seq<Option<Message>>, s: State)
    requires Reachable(input, s) && s.main.Returned? && !s.broken
    ensures |s.log| == |Messages(input)|
    ensures forall k :: 0 <= k < |s.log| ==>
      && s.log[k].message == Messages(input)[k] && s.log[k].outcome.Some?
      && Of(s.output, k) == LinesFor(Messages(input)[k], s.log[k].outcome.value)
      && Answers(Messages(input)[k], s.log[k].outcome.value, Of(s.output, k))
    ensures forall i :: 0 <= i < |s.output| ==> s.output[i].id < |Messages(input)|
  {
    InvariantHolds(input, s);
    assert s.sent == s.output + [] == s.output;
    assert Messages(s.input) == [] && Messages(input) == Map(s.log, MessageOf);
    forall k | 0 <= k < |s.log|
      ensures s.log[k].message == Messages(input)[k] && s.log[k].outcome.Some?
      ensures Of(s.output, k) == LinesFor(Messages(input)[k], s.log[k].outcome.value)
      ensures Answers(Messages(input)[k], s.log[k].outcome.value, Of(s.output, k))
    {
      assert !HasTask(s.tasks, k);
      assert Settled(s, k);
      assert Map(s.log, MessageOf)[k] == s.log[k].message;
      LinesAnswer(Messages(input)[k], s.log[k].outcome.value);
    }
  }

  /** The writer breaks exactly when a write fails. */
  lemma {:induction false} BrokenByAFailedWrite(s: State, run: seq<Action>)
    requires IsRun(s, run)
    ensures End(s, run).broken <==> s.broken || WriteLine(true) in run
    decreases |run|
  {
    if run != [] {
      BrokenByAFailedWrite(Do(s, run[0]), run[1..]);
      assert run == [run[0]] + run[1..];
    }
  }

  /** So a run in which every write succeeds ends with every line written. */
  lemma EveryLineIsWritten(input: seq<Option<Message>>, run: seq<Action>)
    requires IsRun(Initial(input), run) && WriteLine(true) !in run && End(Initial(input), run).main.Returned?
    ensures
      var s := End(Initial(input), run);
      && |s.log| == |Messages(input)|
      && forall k :: 0 <= k < |s.log| ==>
           s.log[k].outcome.Some? && Answers(Messages(input)[k], s.log[k].outcome.value, Of(s.output, k))
  {
    BrokenByAFailedWrite(Initial(input), run);
    OutputIsCompleteMerge(input, End(Initial(input), run));
  }

  /** Even when the writer breaks, what was written is an initial part of what was sent, line by whole line. */
  lemma OutputIsAlwaysAPrefix(input: seq<Option<Message>>, s: State)
    requires Reachable(input, s)
    ensures s.output <= s.sent
  {
    InvariantHolds(input, s);
  }

  // ---- Progress ----

  /** Until the relay has returned, some step can be taken. */
  lemma NeverStuck(input: seq<Option<Message>>, s: State)
    requires Reachable(input, s) && !s.main.Returned?
    ensures exists a :: Enabled(s, a)
  {
    InvariantHolds(input, s);
    if s.main.Reading? {
      assert Enabled(s, ReadLine);
    } else if s.main.AwaitingWriter? {
      assert Enabled(s, if !s.writing then Return else if s.queue == [] then EndWriter else WriteLine(false));
    } else if s.tasks == [] {
      assert Enabled(s, Close);
    } else {
      TaskCanMove(s);
    }
  }

  lemma TaskCanMove(s: State)
    requires TasksAccount(s) && PhasesFit(s) && s.tasks != [] && (s.main.Joining? || s.main.Draining?)
    ensures exists a :: Enabled(s, a)
  {
    assert TaskAccounts(s, s.tasks[0]);
    match s.tasks[0].phase
    case Finished => assert Enabled(s, Join(0));
    case Waiting => assert Enabled(s, Answer(0, Failed));
    case Sending(rest) =>
      if rest == [] {
        assert Enabled(s, Finish(0));
      } else if |s.queue| < CHANNEL_CAPACITY {
        assert Enabled(s, Send(0));
      } else {
        assert Enabled(s, WriteLine(false));
      }
  }

  function Unanswered(tasks: seq<Task>): nat {
    if tasks == [] then 0
    else Unanswered(tasks[..|tasks| - 1]) + if tasks[|tasks| - 1].phase.Waiting? then 1 else 0
  }

  function WorkOf(t: Task): nat {
    match t.phase
    case Waiting => 0
    case Sending(rest) => 3 + 2 * |rest|
    case Finished => 2
  }

  function Work(tasks: seq<Task>): nat {
    if tasks == [] then 0 else Work(tasks[..|tasks| - 1]) + WorkOf(tasks[|tasks| - 1])
  }

  function MainRank(m: Main): nat {
    match m
    case Reading => 4
    case Joining => 3
    case Draining => 3
    case AwaitingWriter => 2
    case Returned => 1
  }

  /** Messages not yet answered, counted twice while they are still input. */
  function Pending(s: State): nat { 2 * |s.input| + Unanswered(s.tasks) }

  function Remaining(s: State): nat {
    Work(s.tasks) + |s.queue| + MainRank(s.main) + if s.writing then 1 else 0
  }

  lemma {:induction false} WorkUpdate(tasks: seq<Task>, i: nat, t: Task)
    requires i < |tasks|
    ensures Work(tasks[i := t]) == Work(tasks) - WorkOf(tasks[i]) + WorkOf(t)
    ensures Unanswered(tasks[i := t])
         == Unanswered(tasks) - (if tasks[i].phase.Waiting? then 1 else 0) + (if t.phase.Waiting? then 1 else 0)
  {
    var n := |tasks| - 1;
    if i < n {
      WorkUpdate(tasks[..n], i, t);
      assert tasks[i := t][..n] == tasks[..n][i := t];
    } else {
      assert tasks[i := t][..n] == tasks[..n];
    }
  }

  lemma {:induction false} WorkWithout(tasks: seq<Task>, i: nat)
    requires i < |tasks|
    ensures Work(Without(tasks, i)) == Work(tasks) - WorkOf(tasks[i])
    ensures Unanswered(Without(tasks, i)) == Unanswered(tasks) - if tasks[i].phase.Waiting? then 1 else 0
  {
    var n := |tasks| - 1;
    if i < n {
      WorkWithout(tasks[..n], i);
      assert Without(tasks, i)[..n - 1] == Without(tasks[..n], i);
    } else {
      assert Without(tasks, i) == tasks[..n];
    }
  }

  /** Every step brings the end nearer, so no run of a finite input goes on forever. */
  lemma EveryStepDescends(s: State, a: Action)
    requires PhasesFit(s) && Enabled(s, a)
    ensures
      var t := Do(s, a);
      Pending(t) < Pending(s) || (Pending(t) == Pending(s) && Remaining(t) < Remaining(s))
  {
    match a
    case ReadLine =>
      if s.input != [] && s.input[0].Some? {
        assert (s.tasks + [Task(|s.log|, Waiting)])[..|s.tasks|] == s.tasks;
      }
    case Join(i) => WorkWithout(s.tasks, i);
    case Answer(i, o) => WorkUpdate(s.tasks, i, Do(s, a).tasks[i]);
    case Send(i) => WorkUpdate(s.tasks, i, Do(s, a).tasks[i]);
    case Finish(i) => WorkUpdate(s.tasks, i, Do(s, a).tasks[i]);
    case _ =>
  }
}
