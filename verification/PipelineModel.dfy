/** The log pipeline as a transition system: any number of logging threads, the pipe, and the one
    thread that moves records from the pipe to the rotating file. */
module PipelineModel {
  import opened CText
  import opened Formatter
  import opened Pipes
  import F = LogFileModel
  import FileNames

  /** A text and the thread that logged it. */
  datatype Entry = Entry(thread: nat, text: string)

  type Memory = s: string | |s| == BUFFER_SIZE witness Repeat(NUL, BUFFER_SIZE)
  type Left = n: nat | 0 < n <= BUFFER_SIZE witness 1

  /** `formatted` are texts of threads that have passed the `file_` check and have not written
      to the pipe yet. `buffer` and `bytesLeft` belong to the reader's `read`; `hand` is the record
      that it returned and that is not written yet. The rest is history: texts written to the
      pipe, records given to the file, records dropped by the reader. */
  datatype Processor = Processor(
    started: bool,
    format: string,
    file: Option<F.FileState>,
    pipe: string,
    buffer: Memory,
    bytesLeft: Left,
    hand: Option<string>,
    formatted: seq<Entry>,
    accepted: seq<Entry>,
    stored: seq<string>,
    lost: seq<string>)

  const INITIAL := Processor(false, "", None, [], Repeat(NUL, BUFFER_SIZE), BUFFER_SIZE, None, [], [], [], [])

  /** `init` starts the reader thread before it creates the file. `memory` is what the buffer of a
      new `read` holds before its first piece. */
  datatype Step =
    | StartThread(format: string)
    | SetFile(file: F.FileState)
    | Log(thread: nat, message: LogMessage)
    | WriteToPipe(k: nat)
    | ReadPiece(memory: Memory)
    | WriteToFile(atEnd: bool)

  /** A thread logs its next message when its last one is in the pipe; `read` gets a piece as soon
      as there is any byte. */
  predicate Enabled(p: Processor, step: Step) {
    match step
    case StartThread(_) => !p.started
    case SetFile(_) => p.started && p.file.None?
    case Log(thread, _) => forall e <- p.formatted :: e.thread != thread
    case WriteToPipe(k) => k < |p.formatted|
    case ReadPiece(_) => p.started && p.hand.None? && p.pipe != []
    case WriteToFile(_) => p.hand.Some?
  }

  /** `operator+=` does nothing without a file, and passes on what `formatMessage` throws. */
  function OnLog(p: Processor, thread: nat, m: LogMessage): Processor {
    if p.file.None? then p
    else
      match Format(p.format, m)
      case None => p
      case Some(text) => p.(formatted := p.formatted + [Entry(thread, text)])
  }

  function OnWriteToPipe(p: Processor, k: nat): Processor
    requires k < |p.formatted|
  {
    p.(formatted := p.formatted[..k] + p.formatted[k + 1..],
       pipe := p.pipe + RecordOf(p.formatted[k].text),
       accepted := p.accepted + [p.formatted[k]])
  }

  /** One `read()`: what is there, at most what is left, goes to the front of the buffer. */
  function OnReadPiece(p: Processor, memory: Memory): Processor {
    var n := Min(p.bytesLeft, |p.pipe|);
    var before := if p.bytesLeft == BUFFER_SIZE then memory else p.buffer;
    var buffer: Memory := p.pipe[..n] + before[n..];
    var rest := p.(pipe := p.pipe[n..]);
    if n == p.bytesLeft then rest.(hand := Some(UpToNul(buffer)), bytesLeft := BUFFER_SIZE)
    else rest.(buffer := buffer, bytesLeft := p.bytesLeft - n)
  }

  function OnWriteToFile(p: Processor, atEnd: bool): Processor
    requires p.hand.Some?
  {
    if p.file.Some? then
      p.(hand := None, file := Some(F.Write(p.file.value, p.hand.value, atEnd)), stored := p.stored + [p.hand.value])
    else p.(hand := None, lost := p.lost + [p.hand.value])
  }

  function Apply(p: Processor, step: Step): Processor
    requires Enabled(p, step)
  {
    match step
    case StartThread(format) => p.(started := true, format := format)
    case SetFile(file) => p.(file := Some(file))
    case Log(thread, m) => OnLog(p, thread, m)
    case WriteToPipe(k) => OnWriteToPipe(p, k)
    case ReadPiece(memory) => OnReadPiece(p, memory)
    case WriteToFile(atEnd) => OnWriteToFile(p, atEnd)
  }

  function Run(steps: seq<Step>): Option<Processor> {
    if steps == [] then Some(INITIAL)
    else
      var before := Run(steps[..|steps| - 1]);
      var step := steps[|steps| - 1];
      if before.Some? && Enabled(before.value, step) then Some(Apply(before.value, step)) else None
  }

  // ----- the invariant -----

  function Records(entries: seq<Entry>): (r: seq<string>)
    ensures |r| == |entries| && forall i :: 0 <= i < |r| ==> r[i] == RecordOf(entries[i].text)
  {
    seq(|entries|, i requires 0 <= i < |entries| => RecordOf(entries[i].text))
  }

  function Cuts(entries: seq<Entry>): (r: seq<string>)
    ensures |r| == |entries| && forall i :: 0 <= i < |r| ==> r[i] == Cut(entries[i].text)
  {
    seq(|entries|, i requires 0 <= i < |entries| => Cut(entries[i].text))
  }

  /** The records that have left the pipe. */
  function Taken(p: Processor): seq<string> {
    p.stored + if p.hand.Some? then [p.hand.value] else []
  }

  /** Nothing is in the pipe before there is a file; the records that left the pipe and those in
      it are the accepted texts, in order and cut; no `read` has got a part of a record; nothing
      was dropped. */
  predicate PipeInv(p: Processor) {
    && (p.file.None? ==> p.formatted == [] && p.accepted == [])
    && p.lost == []
    && p.bytesLeft == BUFFER_SIZE
    && |Taken(p)| <= |p.accepted|
    && Taken(p) == Cuts(p.accepted[..|Taken(p)|])
    && p.pipe == Concat(Records(p.accepted[|Taken(p)|..]))
  }

  /** The files hold the records of earlier runs, then the stored ones. */
  ghost predicate FileInv(p: Processor, ledger: F.Ledger, start: F.Ledger) {
    if p.file.None? then ledger == start && p.stored == []
    else F.Inv(p.file.value, ledger) && F.Flatten(ledger) == F.Flatten(start) + p.stored
  }

  lemma WriteToPipeKeeps(p: Processor, k: nat)
    requires PipeInv(p) && Enabled(p, WriteToPipe(k))
    ensures PipeInv(Apply(p, WriteToPipe(k)))
  {
    hide RecordOf, Cut, Concat;
    var e, n := p.formatted[k], |Taken(p)|;
    var rest := p.accepted[n..];
    assert (p.accepted + [e])[n..] == rest + [e];
    assert (p.accepted + [e])[..n] == p.accepted[..n];
    assert Records(rest + [e]) == Records(rest) + [RecordOf(e.text)];
    ConcatSnoc(Records(rest), RecordOf(e.text));
  }

  /** The first piece that a `read` gets is the next whole record. */
  lemma PieceIsRecord(p: Processor, memory: Memory)
    requires PipeInv(p) && Enabled(p, ReadPiece(memory))
    ensures |p.stored| < |p.accepted| && |p.pipe| >= BUFFER_SIZE
    ensures var e := p.accepted[|p.stored|];
            && p.pipe[..BUFFER_SIZE] == RecordOf(e.text)
            && Apply(p, ReadPiece(memory)) == p.(hand := Some(Cut(e.text)), pipe := p.pipe[BUFFER_SIZE..])
  {
    hide RecordOf, Cut, UpToNul;
    var rest := p.accepted[|p.stored|..];
    assert rest != [];
    assert Records(rest)[1..] == Records(rest[1..]);
    assert p.pipe == RecordOf(rest[0].text) + Concat(Records(rest[1..]));
    RecordCut(rest[0].text);
    assert p.pipe[..BUFFER_SIZE] + memory[BUFFER_SIZE..] == RecordOf(rest[0].text);
  }

  lemma ReadPieceKeeps(p: Processor, memory: Memory)
    requires PipeInv(p) && Enabled(p, ReadPiece(memory))
    ensures PipeInv(Apply(p, ReadPiece(memory)))
  {
    hide RecordOf, Cut, OnReadPiece;
    PieceIsRecord(p, memory);
    var n := |p.stored|;
    var rest := p.accepted[n..];
    assert Records(rest)[1..] == Records(rest[1..]);
    assert p.pipe == RecordOf(rest[0].text) + Concat(Records(rest[1..]));
    assert rest[1..] == p.accepted[n + 1..];
    assert p.accepted[..n + 1] == p.accepted[..n] + [rest[0]];
    assert Cuts(p.accepted[..n + 1]) == Cuts(p.accepted[..n]) + [Cut(rest[0].text)];
  }

  lemma WriteToFileKeeps(p: Processor, atEnd: bool)
    requires PipeInv(p) && Enabled(p, WriteToFile(atEnd))
    ensures PipeInv(Apply(p, WriteToFile(atEnd))) && p.file.Some?
  {
    hide RecordOf, Cut, F.Write;
    assert p.accepted != [];
    assert Taken(Apply(p, WriteToFile(atEnd))) == Taken(p);
  }

  /** Every step keeps the records whole and in order. */
  lemma PipeStepKeeps(p: Processor, step: Step)
    requires PipeInv(p) && Enabled(p, step)
    ensures PipeInv(Apply(p, step))
  {
    hide RecordOf, Cut, Format, OnReadPiece;
    match step
    case WriteToPipe(k) => WriteToPipeKeeps(p, k);
    case ReadPiece(memory) => ReadPieceKeeps(p, memory);
    case WriteToFile(atEnd) => WriteToFileKeeps(p, atEnd);
    case _ =>
  }

  /** A new file is one that a constructor made on a directory with the ledger `start`. */
  ghost predicate FilesFrom(steps: seq<Step>, start: F.Ledger) {
    forall step <- steps :: step.SetFile? ==> F.Inv(step.file, start)
  }

  lemma FileStepKeeps(p: Processor, step: Step, ledger: F.Ledger, start: F.Ledger) returns (next: F.Ledger)
    requires PipeInv(p) && Enabled(p, step) && FileInv(p, ledger, start)
    requires step.SetFile? ==> F.Inv(step.file, start)
    requires |F.Flatten(start)| + |p.stored| < FileNames.ULONG_MAX
    ensures FileInv(Apply(p, step), next, start)
  {
    hide F.Inv, F.Flatten, F.Write, Format, RecordOf, PipeInv;
    next := ledger;
    assert F.Flatten(start) + [] == F.Flatten(start);
    if step.WriteToFile? {
      WriteToFileKeeps(p, step.atEnd);
      var st, data := p.file.value, p.hand.value;
      F.InvFits(st, ledger);
      F.InvIndexFits(st, ledger);
      F.WriteKeeps(st, ledger, data, step.atEnd);
      F.ExtendedFlatten(st, ledger, data);
      next := F.Extended(st, ledger, data);
      assert F.Flatten(start) + p.stored + [data] == F.Flatten(start) + (p.stored + [data]);
    }
  }

  lemma StoredFits(p: Processor, step: Step)
    requires Enabled(p, step)
    ensures |Apply(p, step).stored| <= |p.stored| + 1
  {
    hide Format, RecordOf, F.Write;
  }

  lemma {:induction false} Reachable(steps: seq<Step>, start: F.Ledger) returns (ledger: F.Ledger)
    requires Run(steps).Some? && FilesFrom(steps, start)
    requires |F.Flatten(start)| + |steps| <= FileNames.ULONG_MAX
    ensures PipeInv(Run(steps).value) && FileInv(Run(steps).value, ledger, start)
    ensures |Run(steps).value.stored| <= |steps|
  {
    hide PipeInv, FileInv, F.Inv, Enabled, Apply, F.Flatten;
    if steps == [] {
      ledger := start;
      StartsRight(start);
    } else {
      var init, step := steps[..|steps| - 1], steps[|steps| - 1];
      assert step in steps && forall s <- init :: s in steps;
      var before := Reachable(init, start);
      var p := Run(init).value;
      PipeStepKeeps(p, step);
      StoredFits(p, step);
      ledger := FileStepKeeps(p, step, before, start);
    }
  }

  lemma StartsRight(start: F.Ledger)
    ensures PipeInv(INITIAL) && FileInv(INITIAL, start, start)
  {
  }

  // ----- the theorems -----

  lemma {:induction false} WholeRecords(entries: seq<Entry>)
    ensures |Concat(Records(entries))| == BUFFER_SIZE * |entries|
  {
    if entries != [] {
      assert Records(entries)[1..] == Records(entries[1..]);
      WholeRecords(entries[1..]);
    }
  }

  /** The pipe always holds whole records: those of the accepted texts that nobody has read. The
      records given to the file, the one that the reader holds and those in the pipe are, in write
      order, the accepted texts cut at 255 bytes and at their first NUL. None is dropped. */
  lemma WholeRecordPipeline(steps: seq<Step>)
    requires Run(steps).Some?
    ensures var p := Run(steps).value;
            && |p.pipe| % 256 == 0
            && |Taken(p)| <= |p.accepted|
            && Cuts(p.accepted) == Taken(p) + Cuts(p.accepted[|Taken(p)|..])
            && p.pipe == Concat(Records(p.accepted[|Taken(p)|..]))
            && p.lost == []
  {
    hide RecordOf, Cut, Concat, Enabled, Apply;
    PipeReachable(steps);
    var p := Run(steps).value;
    WholeRecords(p.accepted[|Taken(p)|..]);
  }

  /** Whenever the reader may read, one `read()` gives it the whole next record, whatever its
      buffer held. */
  lemma EveryReadIsWhole(steps: seq<Step>, memory: Memory)
    requires Run(steps).Some? && Enabled(Run(steps).value, ReadPiece(memory))
    ensures var p := Run(steps).value;
            && |p.stored| < |p.accepted| && |p.pipe| >= 256
            && p.pipe[..256] == RecordOf(p.accepted[|p.stored|].text)
            && Apply(p, ReadPiece(memory)).hand == Some(Cut(p.accepted[|p.stored|].text))
            && Apply(p, ReadPiece(memory)).pipe == p.pipe[256..]
  {
    hide RecordOf, Cut, OnReadPiece, PipeInv;
    PipeReachable(steps);
    PieceIsRecord(Run(steps).value, memory);
  }

  lemma {:induction false} PipeReachable(steps: seq<Step>)
    requires Run(steps).Some?
    ensures PipeInv(Run(steps).value)
  {
    hide PipeInv, Enabled, Apply;
    if steps == [] {
      StartsRight([]);
    } else {
      PipeReachable(steps[..|steps| - 1]);
      PipeStepKeeps(Run(steps[..|steps| - 1]).value, steps[|steps| - 1]);
    }
  }

  // ----- each message once -----

  /** The format that `init` was called with. */
  function FormatGiven(steps: seq<Step>): string {
    if steps == [] then ""
    else if steps[|steps| - 1].StartThread? then steps[|steps| - 1].format
    else FormatGiven(steps[..|steps| - 1])
  }

  /** `init` has got its file. */
  predicate FileGiven(steps: seq<Step>) {
    exists step <- steps :: step.SetFile?
  }

  /** The entries that the steps log: one for each message that comes after the file and that the
      format of `init` takes. */
  function Logged(steps: seq<Step>): seq<Entry> {
    if steps == [] then []
    else
      var init, step := steps[..|steps| - 1], steps[|steps| - 1];
      Logged(init) + if step.Log? && FileGiven(init) then Formatted(FormatGiven(init), step) else []
  }

  function Formatted(format: string, step: Step): seq<Entry>
    requires step.Log?
  {
    match Format(format, step.message)
    case None => []
    case Some(text) => [Entry(step.thread, text)]
  }

  function NewEntry(p: Processor, step: Step): seq<Entry> {
    if step.Log? && p.file.Some? then Formatted(p.format, step) else []
  }

  /** The processor works with the format and the file that the steps gave it. */
  lemma {:induction false} Configured(steps: seq<Step>)
    requires Run(steps).Some?
    ensures Run(steps).value.format == FormatGiven(steps)
    ensures Run(steps).value.file.Some? <==> FileGiven(steps)
    ensures Run(steps).value.started <==> exists step <- steps :: step.StartThread?
    ensures Run(steps).value.file.Some? ==> Run(steps).value.started
  {
    hide Format, RecordOf, F.Write, OnReadPiece, UpToNul;
    if steps != [] {
      var init, last := steps[..|steps| - 1], steps[|steps| - 1];
      assert steps == init + [last];
      Configured(init);
      if last.ReadPiece? {
        ReadPieceFrame(Run(init).value, last.memory);
      }
      assert last in steps && forall step <- init :: step in steps;
    }
  }

  /** The texts of one thread, in order. */
  function TextsOf(entries: seq<Entry>, thread: nat): seq<string> {
    if entries == [] then []
    else
      var last := entries[|entries| - 1];
      TextsOf(entries[..|entries| - 1], thread) + if last.thread == thread then [last.text] else []
  }

  /** No thread has two texts on the way to the pipe. */
  predicate OneEach(entries: seq<Entry>) {
    forall i, j :: 0 <= i < j < |entries| ==> entries[i].thread != entries[j].thread
  }

  /** The texts in the pipe's history and those on the way to it are the logged ones: each once,
      and for each thread in the order in which it logged them. */
  ghost predicate OnceInv(p: Processor, logged: seq<Entry>) {
    && OneEach(p.formatted)
    && multiset(p.accepted) + multiset(p.formatted) == multiset(logged)
    && forall t: nat :: TextsOf(p.accepted, t) + TextsOf(p.formatted, t) == TextsOf(logged, t)
  }

  lemma TextsSnoc(entries: seq<Entry>, e: Entry, t: nat)
    ensures TextsOf(entries + [e], t) == TextsOf(entries, t) + if e.thread == t then [e.text] else []
  {
    assert (entries + [e])[..|entries|] == entries;
  }

  lemma {:induction false} TextsAppend(a: seq<Entry>, b: seq<Entry>, t: nat)
    ensures TextsOf(a + b, t) == TextsOf(a, t) + TextsOf(b, t)
  {
    hide TextsOf;
    if b == [] {
      assert a + b == a;
      NoTexts(b, t);
    } else {
      var init, last := b[..|b| - 1], b[|b| - 1];
      TextsAppend(a, init, t);
      TextsSnoc(a + init, last, t);
      TextsSnoc(init, last, t);
      assert a + b == a + init + [last] && b == init + [last];
    }
  }

  lemma {:induction false} NoTexts(entries: seq<Entry>, t: nat)
    requires forall e <- entries :: e.thread != t
    ensures TextsOf(entries, t) == []
  {
    if entries != [] {
      var init, last := entries[..|entries| - 1], entries[|entries| - 1];
      assert last in entries && forall e <- init :: e in entries;
      NoTexts(init, t);
    }
  }

  /** Moving one entry from the texts on the way to the end of those in the pipe. */
  lemma MoveKeepsTexts(accepted: seq<Entry>, formatted: seq<Entry>, k: nat, t: nat)
    requires k < |formatted| && OneEach(formatted)
    ensures TextsOf(accepted + [formatted[k]], t) + TextsOf(formatted[..k] + formatted[k + 1..], t)
         == TextsOf(accepted, t) + TextsOf(formatted, t)
  {
    hide TextsOf;
    var a, e, b := formatted[..k], formatted[k], formatted[k + 1..];
    assert formatted == a + [e] + b;
    TextsAppend(a + [e], b, t);
    TextsSnoc(a, e, t);
    TextsSnoc(accepted, e, t);
    TextsAppend(a, b, t);
    if t == e.thread {
      NoTexts(a, t);
      NoTexts(b, t);
    }
  }

  /** A step that leaves both lists alone. */
  lemma OnceSame(p: Processor, q: Processor, logged: seq<Entry>)
    requires OnceInv(p, logged) && q.accepted == p.accepted && q.formatted == p.formatted
    ensures OnceInv(q, logged + [])
  {
    assert logged + [] == logged;
  }

  lemma ReadPieceFrame(p: Processor, memory: Memory)
    ensures OnReadPiece(p, memory).accepted == p.accepted && OnReadPiece(p, memory).formatted == p.formatted
    ensures OnReadPiece(p, memory).format == p.format && OnReadPiece(p, memory).file == p.file
    ensures OnReadPiece(p, memory).started == p.started
  {
  }

  lemma OnceWritten(p: Processor, k: nat, logged: seq<Entry>)
    requires k < |p.formatted| && OnceInv(p, logged)
    ensures OnceInv(OnWriteToPipe(p, k), logged)
  {
    hide RecordOf, TextsOf;
    var a, e, b := p.formatted[..k], p.formatted[k], p.formatted[k + 1..];
    assert p.formatted == a + [e] + b;
    forall t: nat ensures TextsOf(p.accepted + [e], t) + TextsOf(a + b, t) == TextsOf(logged, t) {
      MoveKeepsTexts(p.accepted, p.formatted, k, t);
    }
  }

  lemma OnceLogged(p: Processor, e: Entry, logged: seq<Entry>)
    requires OnceInv(p, logged) && forall f <- p.formatted :: f.thread != e.thread
    ensures OnceInv(p.(formatted := p.formatted + [e]), logged + [e])
  {
    hide TextsOf;
    forall t: nat ensures TextsOf(p.accepted, t) + TextsOf(p.formatted + [e], t) == TextsOf(logged + [e], t) {
      TextsSnoc(p.formatted, e, t);
      TextsSnoc(logged, e, t);
    }
  }

  lemma OnceStep(p: Processor, step: Step, logged: seq<Entry>)
    requires Enabled(p, step) && OnceInv(p, logged)
    ensures OnceInv(Apply(p, step), logged + NewEntry(p, step))
  {
    hide Format, RecordOf, F.Write, OnReadPiece, TextsOf, UpToNul, OnceInv;
    match step
    case WriteToPipe(k) =>
      OnceWritten(p, k, logged);
      assert logged + [] == logged;
    case Log(_, _) =>
      if NewEntry(p, step) == [] {
        OnceSame(p, Apply(p, step), logged);
      } else {
        OnceLogged(p, NewEntry(p, step)[0], logged);
      }
    case ReadPiece(memory) =>
      ReadPieceFrame(p, memory);
      OnceSame(p, Apply(p, step), logged);
    case _ => OnceSame(p, Apply(p, step), logged);
  }

  /** Each message that comes after the file and that the format of `init` takes is written to the
      pipe exactly once, or is on its way there, and the messages of one thread keep their order. */
  lemma {:induction false} AcceptedIsFormatted(steps: seq<Step>)
    requires Run(steps).Some?
    ensures var p := Run(steps).value;
            && multiset(p.accepted) + multiset(p.formatted) == multiset(Logged(steps))
            && (forall t: nat :: TextsOf(p.accepted, t) + TextsOf(p.formatted, t) == TextsOf(Logged(steps), t))
  {
    OnceReachable(steps);
  }

  lemma {:induction false} OnceReachable(steps: seq<Step>)
    requires Run(steps).Some?
    ensures OnceInv(Run(steps).value, Logged(steps))
  {
    hide Enabled, Apply, OnceInv, NewEntry, Formatted;
    if steps == [] {
      OnceStarts();
    } else {
      var init, step := steps[..|steps| - 1], steps[|steps| - 1];
      OnceReachable(init);
      Configured(init);
      OnceStep(Run(init).value, step, Logged(init));
      assert NewEntry(Run(init).value, step)
          == if step.Log? && FileGiven(init) then Formatted(FormatGiven(init), step) else [] by {
        SameEntry(Run(init).value, step, init);
      }
    }
  }

  lemma SameEntry(p: Processor, step: Step, init: seq<Step>)
    requires p.format == FormatGiven(init) && (p.file.Some? <==> FileGiven(init))
    ensures NewEntry(p, step) == if step.Log? && FileGiven(init) then Formatted(FormatGiven(init), step) else []
  {
  }

  lemma OnceStarts()
    ensures OnceInv(INITIAL, [])
  {
  }

  // ----- nothing gets stuck -----

  lemma RunSnoc(steps: seq<Step>, step: Step)
    requires Run(steps).Some? && Enabled(Run(steps).value, step)
    ensures Run(steps + [step]) == Some(Apply(Run(steps).value, step))
    ensures !step.Log? ==> Logged(steps + [step]) == Logged(steps)
  {
    hide Enabled, Apply;
    assert (steps + [step])[..|steps|] == steps;
    assert Logged(steps) + [] == Logged(steps);
  }

  /** The next step of the reader, or of a thread that has formatted its text. */
  lemma NextMove(p: Processor) returns (step: Step)
    requires PipeInv(p) && p.file.Some? && p.started
    requires p.hand.Some? || p.pipe != [] || p.formatted != []
    ensures Enabled(p, step) && !step.Log?
    ensures var q := Apply(p, step);
            && q.file.Some? && |q.formatted| <= |p.formatted|
            && (|q.formatted| < |p.formatted| || |q.pipe| < |p.pipe|
                || (q.pipe == p.pipe && q.hand.None? && p.hand.Some?))
            && (|q.formatted| == |p.formatted| ==> |q.pipe| <= |p.pipe|)
  {
    hide RecordOf, Cut, F.Write, OnReadPiece, Format;
    if p.hand.Some? {
      step := WriteToFile(true);
    } else if p.pipe != [] {
      step := ReadPiece(p.buffer);
      PieceIsRecord(p, p.buffer);
    } else {
      step := WriteToPipe(0);
    }
  }

  /** Once there is a file, the pipeline can always run empty: from every reachable state, without
      another message, it can go on until every logged message is in the file, cut, and those of
      one thread in their order. */
  lemma {:induction false} RunsEmpty(steps: seq<Step>) returns (more: seq<Step>)
    requires Run(steps).Some? && Run(steps).value.file.Some?
    ensures Run(steps + more).Some?
    ensures var p := Run(steps + more).value;
            && p.stored == Cuts(p.accepted)
            && multiset(p.accepted) == multiset(Logged(steps))
            && forall t: nat :: TextsOf(p.accepted, t) == TextsOf(Logged(steps), t)
    decreases |Run(steps).value.formatted|, |Run(steps).value.pipe|, if Run(steps).value.hand.Some? then 1 else 0
  {
    hide Run, Apply, Enabled, PipeInv, Logged, TextsOf, Cuts;
    var p := Run(steps).value;
    PipeReachable(steps);
    Configured(steps);
    if p.hand.None? && p.pipe == [] && p.formatted == [] {
      more := [];
      assert steps + more == steps;
      AcceptedIsFormatted(steps);
      EmptyIsStored(p);
      forall t: nat ensures TextsOf(p.accepted, t) == TextsOf(Logged(steps), t) {
        NoTexts([], t);
      }
    } else {
      var step := NextMove(p);
      RunSnoc(steps, step);
      var rest := RunsEmpty(steps + [step]);
      more := [step] + rest;
      assert steps + more == steps + [step] + rest;
    }
  }

  lemma EmptyIsStored(p: Processor)
    requires PipeInv(p) && p.hand.None? && p.pipe == []
    ensures p.stored == Cuts(p.accepted)
  {
    hide RecordOf, Cut;
    var rest := p.accepted[|Taken(p)|..];
    WholeRecords(rest);
    assert p.accepted[..|Taken(p)|] == p.accepted;
  }

  /** The whole pipeline: the log files, in index order, hold the records of earlier runs and
      then a prefix, in write order, of the texts written to the pipe, each cut at 255 bytes and
      at its first NUL. What is missing is in the reader's hand or in the pipe. */
  lemma LogReachesDisk(steps: seq<Step>, start: F.Ledger)
    requires Run(steps).Some? && FilesFrom(steps, start) && Run(steps).value.file.Some?
    requires |F.Flatten(start)| + |steps| <= FileNames.ULONG_MAX
    ensures var p := Run(steps).value;
            && p.stored <= Cuts(p.accepted)
            && exists k: nat :: F.LogHolds(p.file.value, k, Concat(F.Flatten(start)) + Concat(p.stored))
  {
    hide PipeInv, F.Inv, F.Flatten, F.LogHolds, Concat, Cut, RecordOf, Run;
    var ledger := Reachable(steps, start);
    var p := Run(steps).value;
    StoredIsPrefix(p);
    F.ContentsOfLedger(p.file.value, ledger, |ledger|);
    F.InvIndices(p.file.value, ledger);
    assert ledger[..|ledger|] == ledger;
    ConcatAppend(F.Flatten(start), p.stored);
    HoldsLedger(p.file.value, |ledger|, Concat(F.Flatten(start)) + Concat(p.stored));
  }

  lemma StoredIsPrefix(p: Processor)
    requires PipeInv(p)
    ensures p.stored <= Cuts(p.accepted)
  {
    hide RecordOf, Cut, Concat;
    assert p.stored <= Taken(p) <= Cuts(p.accepted);
  }

  lemma HoldsLedger(st: F.FileState, k: nat, text: string)
    requires (forall i: nat :: FileNames.FileName(st.base, i) in st.files <==> i < k) && F.Contents(st, k) == text
    ensures F.LogHolds(st, k, text)
  {
  }
}
