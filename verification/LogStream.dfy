/** Merging pod logs onto one Server-Sent Events response: one reader per pod, a
    bounded channel, a closer that waits for the readers, and one writer.

    A state is what all of them share plus where each of them stands; a step is
    one thing one of them does. Every interleaving is a sequence of steps. */
module LogStream {

  const CHANNEL_DEPTH: nat := 64

  /** An event as a reader sends it; `reader` says whose it is. */
  datatype Event = Line(reader: nat, text: string) | StreamError(reader: nat)

  /** One answer of the pod log stream to one reader. */
  datatype Read =
    | OpenFailed
    | ReadLine(text: string)
    | ReadEnd(text: string, eof: bool)

  datatype Place =
    | Opening
    | Reading
    | SendingLine(event: Event, end: Ending)
    | Deciding(eof: bool)
    | SendingError(event: Event)
    | Finished

  /** What follows a line: more reading, or the end of the stream. */
  datatype Ending = More | Ended(eof: bool)

  datatype Reader = Reader(place: Place, log: seq<Read>)

  datatype Writer = Serving | Draining | Returned

  /** Whether the end marker was written, and whether the request was live then. */
  datatype EndMarker = NotWritten | Written(requestLive: bool)

  datatype State = State(
    readers: seq<Reader>,
    channel: seq<Event>,
    sends: seq<Event>,        // everything ever put on the channel
    written: seq<Event>,      // everything written to the response
    requestCancelled: bool,
    doneClosed: bool,
    writer: Writer,
    end: EndMarker)
  {
    /** The readers' context: derived from the request, cancelled on return. */
    predicate StreamDone() { requestCancelled || writer.Returned? }
  }

  function Init(pods: nat): State {
    State(seq(pods, _ => Reader(Opening, [])), [], [], [], false, false, Serving, NotWritten)
  }

  // ---------------------------------------------------------------- what a reader owes

  function TrimRight(s: string): (t: string)
    ensures t <= s
    ensures t != "" ==> t[|t| - 1] != '\r' && t[|t| - 1] != '\n'
  {
    if s != "" && (s[|s| - 1] == '\r' || s[|s| - 1] == '\n') then TrimRight(s[..|s| - 1]) else s
  }

  function LineEvents(i: nat, text: string): seq<Event> {
    if text == "" then [] else [Line(i, TrimRight(text))]
  }

  function ErrorEvents(i: nat, eof: bool): seq<Event> {
    if eof then [] else [StreamError(i)]
  }

  function EventsOfRead(i: nat, r: Read): seq<Event> {
    match r
    case OpenFailed => [StreamError(i)]
    case ReadLine(text) => LineEvents(i, text)
    case ReadEnd(text, eof) => LineEvents(i, text) + ErrorEvents(i, eof)
  }

  /** The events a pod's log calls for, in order: one per line, and an error event
      if the stream broke. */
  function EventsOf(i: nat, answers: seq<Read>): seq<Event> {
    if answers == [] then []
    else EventsOf(i, answers[..|answers| - 1]) + EventsOfRead(i, answers[|answers| - 1])
  }

  // ---------------------------------------------------------------- steps

  datatype Step =
    | ReaderReads(i: nat, read: Read)     // the pod log answers
    | ReaderSends(i: nat)                 // the channel takes the event
    | ReaderAborts(i: nat)                // the stream context is done instead
    | ReaderDecides(i: nat)               // after the end: report a broken stream, or not
    | CloserCloses                        // all readers have finished
    | RequestCancelled
    | WriterSeesCancel
    | WriterSeesDone
    | WriterHeartbeat(ok: bool)
    | WriterTakes(ok: bool)               // take the next event and write it
    | WriterEnds                          // drained: write the end marker

  predicate Sending(p: Place) { p.SendingLine? || p.SendingError? }

  predicate Enabled(s: State, step: Step) {
    match step
    case ReaderReads(i, read) =>
      && i < |s.readers|
      && (s.readers[i].place.Opening? || (s.readers[i].place.Reading? && !read.OpenFailed?))
      && (read.ReadLine? ==> read.text != "")
    case ReaderSends(i) =>
      i < |s.readers| && Sending(s.readers[i].place) && |s.channel| < CHANNEL_DEPTH
    case ReaderAborts(i) =>
      i < |s.readers| && Sending(s.readers[i].place) && s.StreamDone()
    case ReaderDecides(i) => i < |s.readers| && s.readers[i].place.Deciding?
    case CloserCloses => !s.doneClosed && forall i | 0 <= i < |s.readers| :: s.readers[i].place.Finished?
    case RequestCancelled => !s.requestCancelled
    case WriterSeesCancel => s.writer.Serving? && s.requestCancelled
    case WriterSeesDone => s.writer.Serving? && s.doneClosed
    case WriterHeartbeat(_) => s.writer.Serving?
    case WriterTakes(_) => !s.writer.Returned? && s.channel != []
    case WriterEnds => s.writer.Draining? && s.channel == []
  }

  function AfterRead(i: nat, read: Read): Place {
    match read
    case OpenFailed => SendingError(StreamError(i))
    case ReadLine(text) => SendingLine(Line(i, TrimRight(text)), More)
    case ReadEnd(text, eof) =>
      if text == "" then Deciding(eof) else SendingLine(Line(i, TrimRight(text)), Ended(eof))
  }

  function AfterSend(p: Place): Place
    requires Sending(p)
  {
    match p
    case SendingLine(_, More) => Reading
    case SendingLine(_, Ended(eof)) => Deciding(eof)
    case SendingError(_) => Finished
  }

  /** A broken stream is reported unless the stream was torn down meanwhile. */
  function AfterDeciding(s: State, i: nat, eof: bool): Place {
    if !eof && !s.StreamDone() then SendingError(StreamError(i)) else Finished
  }

  function MoveReader(s: State, i: nat, p: Place): State
    requires i < |s.readers|
  {
    s.(readers := s.readers[i := s.readers[i].(place := p)])
  }

  function After(s: State, step: Step): State
    requires Enabled(s, step)
  {
    match step
    case ReaderReads(i, read) =>
      s.(readers := s.readers[i := Reader(AfterRead(i, read), s.readers[i].log + [read])])
    case ReaderSends(i) =>
      var p := s.readers[i].place;
      MoveReader(s, i, AfterSend(p)).(channel := s.channel + [p.event], sends := s.sends + [p.event])
    case ReaderAborts(i) => MoveReader(s, i, Finished)
    case ReaderDecides(i) => MoveReader(s, i, AfterDeciding(s, i, s.readers[i].place.eof))
    case CloserCloses => s.(doneClosed := true)
    case RequestCancelled => s.(requestCancelled := true)
    case WriterSeesCancel => s.(writer := Returned)
    case WriterSeesDone => s.(writer := Draining)
    case WriterHeartbeat(ok) => if ok then s else s.(writer := Returned)
    case WriterTakes(ok) =>
      var s' := s.(channel := s.channel[1..]);
      if ok then s'.(written := s.written + [s.channel[0]]) else s'.(writer := Returned)
    case WriterEnds => s.(writer := Returned, end := Written(!s.requestCancelled))
  }

  /** `t` can be reached from `s` by these steps. */
  ghost predicate Leads(s: State, steps: seq<Step>, t: State)
    decreases |steps|
  {
    if steps == [] then s == t
    else Enabled(s, steps[0]) && Leads(After(s, steps[0]), steps[1..], t)
  }

  // ---------------------------------------------------------------- what every step keeps

  /** The events of reader `i`, in order. */
  function Of(i: nat, events: seq<Event>): seq<Event> {
    if events == [] then []
    else Of(i, events[..|events| - 1]) + if events[|events| - 1].reader == i then [events[|events| - 1]] else []
  }

  /** What a reader at this place still has to send. */
  function Owed(i: nat, p: Place): seq<Event> {
    match p
    case SendingLine(ev, More) => [ev]
    case SendingLine(ev, Ended(eof)) => [ev] + ErrorEvents(i, eof)
    case Deciding(eof) => ErrorEvents(i, eof)
    case SendingError(ev) => [ev]
    case _ => []
  }

  /** What reader `i` sent and what it owes make up its log; only a torn-down
      stream cuts a log short. */
  ghost predicate ReaderOk(s: State, i: nat)
    requires i < |s.readers|
  {
    Accounted(i, s.readers[i], Of(i, s.sends), s.StreamDone())
  }

  ghost predicate Accounted(i: nat, r: Reader, sent: seq<Event>, streamDone: bool) {
    && (r.place.Opening? ==> r.log == [])
    && (Sending(r.place) ==> r.place.event.reader == i)
    && (if r.place.Finished? && streamDone then sent <= EventsOf(i, r.log)
        else sent + Owed(i, r.place) == EventsOf(i, r.log))
  }

  ghost predicate ChannelOk(s: State) {
    && |s.channel| <= CHANNEL_DEPTH
    && s.written <= s.sends
    && (!s.writer.Returned? ==> s.written + s.channel == s.sends)
  }

  ghost predicate EndOk(s: State) {
    && (s.doneClosed ==> forall i | 0 <= i < |s.readers| :: s.readers[i].place.Finished?)
    && (s.writer.Draining? ==> s.doneClosed)
    && (s.end.Written? ==> s.writer.Returned? && s.doneClosed && s.written == s.sends)
    && (s.end == Written(true) ==> forall i | 0 <= i < |s.readers| :: Of(i, s.sends) == EventsOf(i, s.readers[i].log))
  }

  ghost predicate Inv(s: State) {
    && (forall i | 0 <= i < |s.readers| :: ReaderOk(s, i))
    && ChannelOk(s)
    && EndOk(s)
  }

  lemma OfAppend(i: nat, events: seq<Event>, ev: Event)
    ensures Of(i, events + [ev]) == Of(i, events) + if ev.reader == i then [ev] else []
  {
    assert (events + [ev])[..|events|] == events;
  }

  lemma EventsOfAppend(i: nat, answers: seq<Read>, r: Read)
    ensures EventsOf(i, answers + [r]) == EventsOf(i, answers) + EventsOfRead(i, r)
  {
    assert (answers + [r])[..|answers|] == answers;
  }

  lemma {:induction false} OfPrefix(i: nat, a: seq<Event>, b: seq<Event>)
    requires a <= b
    ensures Of(i, a) <= Of(i, b)
  {
    if a != b {
      var c := b[..|b| - 1];
      assert b == c + [b[|b| - 1]];
      assert a <= c;
      OfPrefix(i, a, c);
      OfAppend(i, c, b[|b| - 1]);
    }
  }

  lemma InitInv(pods: nat)
    ensures Inv(Init(pods))
  {
  }

  lemma ReadAccounted(i: nat, r: Reader, sent: seq<Event>, streamDone: bool, read: Read)
    requires Accounted(i, r, sent, streamDone) && (r.place.Opening? || r.place.Reading?)
    requires read.ReadLine? ==> read.text != ""
    ensures Accounted(i, Reader(AfterRead(i, read), r.log + [read]), sent, streamDone)
  {
    EventsOfAppend(i, r.log, read);
    assert EventsOfRead(i, read) == Owed(i, AfterRead(i, read));
    assert sent + [] == sent;
  }

  lemma SendAccounted(i: nat, r: Reader, sent: seq<Event>, streamDone: bool)
    requires Accounted(i, r, sent, streamDone) && Sending(r.place)
    ensures Accounted(i, r.(place := AfterSend(r.place)), sent + [r.place.event], streamDone)
  {
    var ev, rest := r.place.event, Owed(i, AfterSend(r.place));
    assert Owed(i, r.place) == [ev] + rest;
    assert sent + Owed(i, r.place) == sent + [ev] + rest;
  }

  lemma StopKeeps(s: State, step: Step, i: nat, j: nat)
    requires Enabled(s, step) && j < |s.readers| && ReaderOk(s, j)
    requires step == ReaderAborts(i) || step == ReaderDecides(i)
    ensures ReaderOk(After(s, step), j)
  {
    var s', r := After(s, step), s.readers[j];
    assert s'.sends == s.sends && s'.StreamDone() == s.StreamDone();
    if j != i {
      assert s'.readers[j] == r;
    } else if step.ReaderAborts? {
      GiveUpAccounted(j, r, Of(j, s.sends));
    } else {
      DecideAccounted(j, r, Of(j, s.sends), s.StreamDone());
    }
  }

  lemma GiveUpAccounted(i: nat, r: Reader, sent: seq<Event>)
    requires Accounted(i, r, sent, true) && !r.place.Finished?
    ensures Accounted(i, r.(place := Finished), sent, true)
  {
  }

  lemma DecideAccounted(i: nat, r: Reader, sent: seq<Event>, streamDone: bool)
    requires Accounted(i, r, sent, streamDone) && r.place.Deciding?
    ensures Accounted(i, r.(place := if !r.place.eof && !streamDone then SendingError(StreamError(i)) else Finished), sent, streamDone)
  {
  }

  lemma ReadKeeps(s: State, i: nat, read: Read, j: nat)
    requires Enabled(s, ReaderReads(i, read)) && j < |s.readers| && ReaderOk(s, j)
    ensures ReaderOk(After(s, ReaderReads(i, read)), j)
  {
    if j == i { ReadAccounted(i, s.readers[i], Of(i, s.sends), s.StreamDone(), read); }
  }

  lemma SendKeeps(s: State, i: nat, j: nat)
    requires Enabled(s, ReaderSends(i)) && j < |s.readers| && ReaderOk(s, j) && ReaderOk(s, i)
    ensures ReaderOk(After(s, ReaderSends(i)), j)
  {
    var s', r := After(s, ReaderSends(i)), s.readers[i];
    OfAppend(j, s.sends, r.place.event);
    assert s'.sends == s.sends + [r.place.event] && s'.StreamDone() == s.StreamDone();
    if j == i {
      SendAccounted(i, r, Of(i, s.sends), s.StreamDone());
      assert s'.readers[j] == r.(place := AfterSend(r.place));
    } else {
      assert s'.readers[j] == s.readers[j] && Of(j, s'.sends) == Of(j, s.sends);
    }
  }

  lemma ReadersKeep(s: State, step: Step, j: nat)
    requires Enabled(s, step) && j < |s.readers|
    requires forall i | 0 <= i < |s.readers| :: ReaderOk(s, i)
    ensures ReaderOk(After(s, step), j)
  {
    assert ReaderOk(s, j);
    match step
    case ReaderReads(i, read) => ReadKeeps(s, i, read, j);
    case ReaderSends(i) => assert ReaderOk(s, i); SendKeeps(s, i, j);
    case ReaderAborts(i) => StopKeeps(s, step, i, j);
    case ReaderDecides(i) => StopKeeps(s, step, i, j);
    case _ => OtherKeeps(s, step, j);
  }

  predicate ReaderStep(step: Step) {
    step.ReaderReads? || step.ReaderSends? || step.ReaderAborts? || step.ReaderDecides?
  }

  lemma OtherKeeps(s: State, step: Step, j: nat)
    requires Enabled(s, step) && !ReaderStep(step) && j < |s.readers| && ReaderOk(s, j)
    ensures ReaderOk(After(s, step), j)
  {
    LeavesReaders(s, step);
    TornDown(j, s.readers[j], Of(j, s.sends), s.StreamDone(), After(s, step).StreamDone());
  }

  lemma LeavesReaders(s: State, step: Step)
    requires Enabled(s, step) && !ReaderStep(step)
    ensures After(s, step).readers == s.readers && After(s, step).sends == s.sends
    ensures s.StreamDone() ==> After(s, step).StreamDone()
  {
  }

  lemma TornDown(i: nat, r: Reader, sent: seq<Event>, streamDone: bool, later: bool)
    requires Accounted(i, r, sent, streamDone) && (streamDone ==> later)
    ensures Accounted(i, r, sent, later)
  {
    assert r.place.Finished? ==> sent + [] == sent;
  }

  lemma ChannelKeeps(s: State, step: Step)
    requires Inv(s) && Enabled(s, step)
    ensures ChannelOk(After(s, step))
  {
    match step
    case WriterTakes(_) =>
      assert s.channel == [s.channel[0]] + s.channel[1..];
      assert s.written + [s.channel[0]] + s.channel[1..] == s.sends;
    case _ =>
  }

  lemma EndKeeps(s: State, step: Step)
    requires Inv(s) && Enabled(s, step)
    ensures EndOk(After(s, step))
  {
    match step
    case WriterEnds =>
      forall i | 0 <= i < |s.readers| && !s.requestCancelled
        ensures Of(i, s.sends) == EventsOf(i, s.readers[i].log)
      {
        assert ReaderOk(s, i);
      }
    case _ =>
  }

  lemma StepKeeps(s: State, step: Step)
    requires Inv(s) && Enabled(s, step)
    ensures Inv(After(s, step)) && |After(s, step).readers| == |s.readers|
  {
    forall j | 0 <= j < |s.readers| ensures ReaderOk(After(s, step), j) { ReadersKeep(s, step, j); }
    ChannelKeeps(s, step);
    EndKeeps(s, step);
  }

  lemma {:induction false} RunKeeps(s: State, steps: seq<Step>, t: State)
    requires Inv(s) && Leads(s, steps, t)
    ensures Inv(t) && |t.readers| == |s.readers|
    decreases |steps|
  {
    if steps != [] {
      StepKeeps(s, steps[0]);
      RunKeeps(After(s, steps[0]), steps[1..], t);
    }
  }

  // ---------------------------------------------------------------- what holds of every interleaving

  /** Whatever the interleaving, what was written for a pod is an initial part of
      that pod's log: in order, nothing twice, nothing left out in between. */
  lemma WrittenIsPrefix(pods: nat, steps: seq<Step>, t: State, i: nat)
    requires Leads(Init(pods), steps, t) && i < pods
    ensures |t.readers| == pods
    ensures Of(i, t.written) <= EventsOf(i, t.readers[i].log)
  {
    InitInv(pods);
    RunKeeps(Init(pods), steps, t);
    assert ReaderOk(t, i);
    OfPrefix(i, t.written, t.sends);
  }

  /** Written while the request was live, the end marker means that every reader
      had finished and every event of every pod had been written. */
  lemma EndMeansComplete(pods: nat, steps: seq<Step>, t: State)
    requires Leads(Init(pods), steps, t) && t.end == Written(true)
    ensures |t.readers| == pods
    ensures forall i | 0 <= i < pods :: t.readers[i].place.Finished? && Of(i, t.written) == EventsOf(i, t.readers[i].log)
  {
    InitInv(pods);
    RunKeeps(Init(pods), steps, t);
  }

  /** After the handler has returned nothing more is written, and all the readers
      together send no more than the channel still has room for. */
  lemma {:induction false} AfterReturn(s: State, steps: seq<Step>, t: State)
    requires Inv(s) && s.writer.Returned? && Leads(s, steps, t)
    ensures t.writer.Returned? && t.written == s.written && t.end == s.end
    ensures |t.sends| - |s.sends| == |t.channel| - |s.channel| <= CHANNEL_DEPTH - |s.channel|
    decreases |steps|
  {
    if steps != [] {
      StepKeeps(s, steps[0]);
      AfterReturn(After(s, steps[0]), steps[1..], t);
    }
  }

  // ---------------------------------------------------------------- no reader is left behind

  /** How far a reader at this place is from its end, while nothing is sent. */
  function Distance(p: Place): nat {
    match p
    case Finished => 0
    case SendingError(_) => 1
    case Deciding(_) => 2
    case SendingLine(_, _) => 3
    case Reading => 4
    case Opening => 4
  }

  /** How many more steps reader `i` can take once nobody empties the channel. */
  function Left(s: State, i: nat): nat
    requires i < |s.readers| && |s.channel| <= CHANNEL_DEPTH
  {
    2 * (CHANNEL_DEPTH - |s.channel|) + Distance(s.readers[i].place)
  }

  predicate Takes(step: Step, i: nat) { ReaderStep(step) && step.i == i }

  function Taken(steps: seq<Step>, i: nat): nat {
    if steps == [] then 0 else (if Takes(steps[0], i) then 1 else 0) + Taken(steps[1..], i)
  }

  /** After the return, each of a reader's steps brings it nearer to its end, whatever
      its reads come to, and nobody else's takes it further away. */
  lemma StepsBringCloser(s: State, step: Step, i: nat)
    requires Inv(s) && s.writer.Returned? && Enabled(s, step) && i < |s.readers|
    ensures var s' := After(s, step);
            && s'.writer.Returned? && |s'.readers| == |s.readers| && |s'.channel| <= CHANNEL_DEPTH
            && Left(s', i) <= Left(s, i) - if Takes(step, i) then 1 else 0
  {
  }

  /** However reads end and steps interleave, a reader takes at most so many steps of
      its own after the return: never more than twice the channel's depth and four. */
  lemma {:induction false} ReaderStepsBounded(s: State, steps: seq<Step>, t: State, i: nat)
    requires Inv(s) && s.writer.Returned? && Leads(s, steps, t) && i < |s.readers|
    ensures t.writer.Returned? && Inv(t) && |t.readers| == |s.readers|
    ensures Taken(steps, i) + Left(t, i) <= Left(s, i) <= 2 * CHANNEL_DEPTH + 4
    decreases |steps|
  {
    if steps != [] {
      StepKeeps(s, steps[0]);
      StepsBringCloser(s, steps[0], i);
      ReaderStepsBounded(After(s, steps[0]), steps[1..], t, i);
    }
  }

  /** A reader that has not finished has a next step that waits for nobody but its
      own read, however that read ends. */
  lemma UnfinishedCanMove(s: State, i: nat, read: Read)
    requires s.StreamDone() && i < |s.readers| && !s.readers[i].place.Finished?
    requires !read.OpenFailed? && (read.ReadLine? ==> read.text != "")
    ensures Enabled(s, ReaderReads(i, read)) || Enabled(s, ReaderAborts(i)) || Enabled(s, ReaderDecides(i))
  {
  }

  /** No reader outlives the handler: in every run from a return that was reached, all
      readers together take no more than so many steps, and when none has a step left
      all have finished and the closer has closed or can. */
  lemma ReadersFinish(pods: nat, before: seq<Step>, s: State, steps: seq<Step>, t: State)
    requires Leads(Init(pods), before, s) && s.writer.Returned? && Leads(s, steps, t)
    ensures |t.readers| == |s.readers| == pods && t.writer.Returned?
    ensures forall i | 0 <= i < pods :: Taken(steps, i) <= 2 * CHANNEL_DEPTH + 4
    ensures (forall step | ReaderStep(step) :: !Enabled(t, step)) ==>
      (forall i | 0 <= i < pods :: t.readers[i].place.Finished?) && (t.doneClosed || Enabled(t, CloserCloses))
  {
    InitInv(pods);
    RunKeeps(Init(pods), before, s);
    forall i | 0 <= i < pods ensures Taken(steps, i) <= 2 * CHANNEL_DEPTH + 4 {
      ReaderStepsBounded(s, steps, t, i);
    }
    AfterReturn(s, steps, t);
    RunKeeps(s, steps, t);
    forall i | 0 <= i < pods && forall step | ReaderStep(step) :: !Enabled(t, step) ensures t.readers[i].place.Finished? {
      var read := ReadEnd("", false);
      assert ReaderStep(ReaderReads(i, read)) && ReaderStep(ReaderAborts(i)) && ReaderStep(ReaderDecides(i));
      if !t.readers[i].place.Finished? { UnfinishedCanMove(t, i, read); }
    }
  }

  // ---------------------------------------------------------------- when the end marker tells the truth

  /** This step makes reader `i` drop an event: it gives up on sending one, or does
      not report a broken stream, because the stream is torn down. */
  predicate Drops(s: State, step: Step, i: nat)
    requires Enabled(s, step)
  {
    || step == ReaderAborts(i)
    || (step == ReaderDecides(i) && !s.readers[i].place.eof && s.StreamDone())
  }

  ghost predicate DropsIn(s: State, steps: seq<Step>, i: nat)
    decreases |steps|
  {
    steps != [] && Enabled(s, steps[0]) && (Drops(s, steps[0], i) || DropsIn(After(s, steps[0]), steps[1..], i))
  }

  /** Reader `i` has finished without having sent all of its log. */
  ghost predicate CutShort(s: State, i: nat)
    requires i < |s.readers|
  {
    s.readers[i].place.Finished? && Of(i, s.sends) != EventsOf(i, s.readers[i].log)
  }

  lemma OneStepCuts(s: State, step: Step, i: nat)
    requires Inv(s) && Enabled(s, step) && i < |s.readers|
    ensures |After(s, step).readers| == |s.readers|
    ensures CutShort(After(s, step), i) <==> CutShort(s, i) || Drops(s, step, i)
  {
    assert ReaderOk(s, i);
    if ReaderStep(step) { assert ReaderOk(s, step.i); ReaderCuts(s, step, i); } else { LeavesReaders(s, step); }
  }

  lemma ReaderCuts(s: State, step: Step, i: nat)
    requires Enabled(s, step) && ReaderStep(step) && i < |s.readers|
    requires ReaderOk(s, i) && ReaderOk(s, step.i)
    ensures CutShort(After(s, step), i) <==> CutShort(s, i) || Drops(s, step, i)
  {
    match step
    case ReaderSends(j) => SendCuts(s, j, i);
    case ReaderReads(j, read) => ReadCuts(s, j, read, i);
    case _ => StopCuts(s, step, i);
  }

  lemma SendCuts(s: State, j: nat, i: nat)
    requires Enabled(s, ReaderSends(j)) && i < |s.readers| && ReaderOk(s, i) && ReaderOk(s, j)
    ensures CutShort(After(s, ReaderSends(j)), i) <==> CutShort(s, i)
  {
    var s', r, ev := After(s, ReaderSends(j)), s.readers[i], s.readers[j].place.event;
    assert s'.sends == s.sends + [ev];
    OfAppend(i, s.sends, ev);
    if j == i {
      assert s'.readers[i] == r.(place := AfterSend(r.place));
      assert r.place.SendingError? ==> Of(i, s'.sends) == EventsOf(i, r.log);
    } else {
      assert s'.readers[i] == r && Of(i, s'.sends) == Of(i, s.sends);
    }
  }

  lemma ReadCuts(s: State, j: nat, read: Read, i: nat)
    requires Enabled(s, ReaderReads(j, read)) && i < |s.readers|
    ensures CutShort(After(s, ReaderReads(j, read)), i) <==> CutShort(s, i)
  {
  }

  lemma StopCuts(s: State, step: Step, i: nat)
    requires Enabled(s, step) && (step.ReaderAborts? || step.ReaderDecides?) && i < |s.readers| && ReaderOk(s, i)
    ensures CutShort(After(s, step), i) <==> CutShort(s, i) || Drops(s, step, i)
  {
    var s', r, sent := After(s, step), s.readers[i], Of(i, s.sends);
    assert s'.sends == s.sends && s'.readers[i].log == r.log;
    if step.i == i {
      assert |sent| + |Owed(i, r.place)| == |EventsOf(i, r.log)|;
      assert |Owed(i, r.place)| == 0 ==> sent + [] == sent;
    }
  }

  lemma {:induction false} RunCuts(s: State, steps: seq<Step>, t: State, i: nat)
    requires Inv(s) && Leads(s, steps, t) && i < |s.readers|
    ensures |t.readers| == |s.readers|
    ensures CutShort(t, i) <==> CutShort(s, i) || DropsIn(s, steps, i)
    decreases |steps|
  {
    if steps != [] {
      OneStepCuts(s, steps[0], i);
      StepKeeps(s, steps[0]);
      RunCuts(After(s, steps[0]), steps[1..], t, i);
    }
  }

  ghost predicate Complete(t: State) {
    forall i | 0 <= i < |t.readers| :: CompleteFor(t, i)
  }

  ghost predicate CompleteFor(t: State, i: nat)
    requires i < |t.readers|
  {
    Of(i, t.written) == EventsOf(i, t.readers[i].log)
  }

  /** Once the end marker is written, every log has been written in full exactly when no
      reader dropped an event on the way. */
  lemma EndCompleteIff(pods: nat, steps: seq<Step>, t: State)
    requires Leads(Init(pods), steps, t) && t.end.Written?
    ensures |t.readers| == pods
    ensures Complete(t) <==> forall i | 0 <= i < pods :: NothingDropped(pods, steps, i)
  {
    InitInv(pods);
    RunKeeps(Init(pods), steps, t);
    forall i | 0 <= i < pods ensures CompleteFor(t, i) <==> NothingDropped(pods, steps, i) {
      RunCuts(Init(pods), steps, t, i);
    }
  }

  ghost predicate NothingDropped(pods: nat, steps: seq<Step>, i: nat) { !DropsIn(Init(pods), steps, i) }

  lemma {:induction false} FinishedStay(s: State, steps: seq<Step>, t: State, i: nat)
    requires Leads(s, steps, t) && i < |s.readers| && s.readers[i].place.Finished?
    ensures !DropsIn(s, steps, i)
    decreases |steps|
  {
    if steps != [] { FinishedStay(After(s, steps[0]), steps[1..], t, i); }
  }

  /** As a caller can tell: an end marker is the truth whenever the readers had finished
      before the request was cancelled, and whatever was cancelled after that. */
  lemma EndCompleteOnceFinished(pods: nat, before: seq<Step>, s: State, after: seq<Step>, t: State)
    requires Leads(Init(pods), before, s) && !s.StreamDone()
    requires forall i | 0 <= i < |s.readers| :: s.readers[i].place.Finished?
    requires Leads(s, after, t) && t.end.Written?
    ensures Complete(t)
  {
    InitInv(pods);
    RunKeeps(Init(pods), before, s);
    RunKeeps(s, after, t);
    forall i | 0 <= i < |t.readers| ensures CompleteFor(t, i) {
      assert ReaderOk(s, i);
      FinishedStay(s, after, t, i);
      RunCuts(s, after, t, i);
    }
  }

  // ---------------------------------------------------------------- an end marker that is not

  /** A pod log of one line, read and not yet sent. */
  function OneLineRead(): State {
    State([Reader(SendingLine(Line(0, "x"), Ended(true)), [ReadEnd("x", true)])],
          [], [], [], false, false, Serving, NotWritten)
  }

  lemma OneLineIsReached()
    ensures Leads(Init(1), [ReaderReads(0, ReadEnd("x", true))], OneLineRead())
    ensures EventsOf(0, OneLineRead().readers[0].log) == [Line(0, "x")]
  {
    var read := ReadEnd("x", true);
    var s0 := State([Reader(Opening, [])], [], [], [], false, false, Serving, NotWritten);
    assert Init(1) == s0;
    assert TrimRight("x") == "x";
    assert s0.readers[0].log + [read] == [read];
    StepLeads(s0, ReaderReads(0, read), OneLineRead(), [], OneLineRead());
    EventsOfAppend(0, [], read);
    assert [] + [read] == [read];
  }

  /** Cancelling the request while a reader still has something to send can lose it and
      still end with the end marker: the reader gives up on its line, and the writer
      sees the readers done before it sees the cancellation. */
  lemma EndAfterCancelMayBeShort()
    ensures exists steps, t :: && Leads(OneLineRead(), steps, t) && t.end == Written(false)
                               && t.written == [] && |t.readers| == 1 && t.readers[0].log == OneLineRead().readers[0].log
  {
    var s1 := OneLineRead();
    var s2 := s1.(requestCancelled := true);
    var s3 := s2.(readers := [Reader(Finished, s1.readers[0].log)]);
    var s4 := s3.(doneClosed := true);
    var s5 := s4.(writer := Draining);
    var s6 := s5.(writer := Returned, end := Written(false));
    StepLeads(s5, WriterEnds, s6, [], s6);
    StepLeads(s4, WriterSeesDone, s5, [WriterEnds], s6);
    StepLeads(s3, CloserCloses, s4, [WriterSeesDone] + [WriterEnds], s6);
    StepLeads(s2, ReaderAborts(0), s3, [CloserCloses] + ([WriterSeesDone] + [WriterEnds]), s6);
    StepLeads(s1, RequestCancelled, s2, [ReaderAborts(0)] + ([CloserCloses] + ([WriterSeesDone] + [WriterEnds])), s6);
  }

  lemma StepLeads(s: State, step: Step, s': State, steps: seq<Step>, t: State)
    requires Enabled(s, step) && After(s, step) == s' && Leads(s', steps, t)
    ensures Leads(s, [step] + steps, t)
  {
    assert ([step] + steps)[1..] == steps;
  }
}
