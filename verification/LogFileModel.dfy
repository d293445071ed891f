/** The rotating log writer on values: one directory, and what `write`, `rotate` and a restart do
    to it. */
module LogFileModel {
  import opened CText
  import opened FileNames

  /** `files` are the regular files of the directory; `open` and `position` are `currentFile_`
      and what `ftell` says about it. */
  datatype FileState = FileState(
    files: map<string, string>,
    base: string,
    rotationSize: nat,
    index: nat,
    open: bool,
    position: nat)

  /** `getFile`. An append stream may report its initial position as 0 or as the end of the file
      (ISO C11, section 7.21.3): `atEnd` says which. */
  function GetFile(st: FileState, atEnd: bool): FileState {
    var name := FileName(st.base, st.index);
    if st.open then st
    else if name in st.files then st.(open := true, position := if atEnd then |st.files[name]| else 0)
    else st.(files := st.files[name := []], open := true, position := 0)
  }

  /** `fwrite` to the current file; writing nothing does not move the position. */
  function Append(st: FileState, data: string): FileState {
    var name := FileName(st.base, st.index);
    if data == [] || name !in st.files then st
    else st.(files := st.files[name := st.files[name] + data], position := |st.files[name] + data|)
  }

  /** The index is an `unsigned long`. */
  function Rotate(st: FileState): FileState {
    if st.open && st.position > st.rotationSize then
      st.(open := false, index := if st.index == ULONG_MAX then 0 else st.index + 1, position := 0)
    else st
  }

  function Write(st: FileState, data: string, atEnd: bool): FileState {
    Rotate(Append(GetFile(st, atEnd), data))
  }

  /** The writer's life: records, and restarts with a rotation size of their own. */
  datatype Op = Record(data: string, atEnd: bool) | Restart(rotationSize: nat)

  /** A restart ends the process and constructs a new `File` on the same directory; there is no
      new state when the constructor throws. */
  ghost predicate Next(st: FileState, op: Op, st': FileState) {
    match op
    case Record(data, atEnd) => st' == Write(st, data, atEnd)
    case Restart(rotationSize) =>
      exists index: nat ::
        IsLastIndex(st.base, st.files.Keys, Some(index)) &&
        st' == st.(rotationSize := rotationSize, index := index, open := false, position := 0)
  }

  /** `states` lists the states before, between and after the operations. */
  ghost predicate Run(states: seq<FileState>, ops: seq<Op>) {
    && |states| == |ops| + 1
    && forall i :: 0 <= i < |ops| ==> Next(states[i], ops[i], states[i + 1])
  }

  // ----- the ledger: which records are in which file -----

  /** `ledger[i]` are the records in the file with index `i`. */
  type Ledger = seq<seq<string>>

  function Flatten(ledger: Ledger): seq<string> {
    if ledger == [] then [] else Flatten(ledger[..|ledger| - 1]) + ledger[|ledger| - 1]
  }

  predicate IndexFits(st: FileState, ledger: Ledger) {
    && (st.index == |ledger| || st.index + 1 == |ledger|)
    && (st.open ==> st.index + 1 == |ledger|)
  }

  /** The files are contiguous from 0, every file was made by a record, and the position is
      never beyond the end of the current file. */
  ghost predicate Inv(st: FileState, ledger: Ledger) {
    && Find(st.base, FILE_EXTENSION).None?
    && IsDisk(st.files, st.base, ledger)
    && IndexFits(st, ledger)
    && (forall records <- ledger :: records != [])
    && (st.open ==> st.position <= |Concat(ledger[st.index])|)
  }

  /** The directory holds the files of the ledger; any other file lacks the base name or the
      extension. */
  ghost predicate IsDisk(files: map<string, string>, base: string, ledger: Ledger) {
    && (forall i: nat :: FileName(base, i) in files <==> i < |ledger|)
    && (forall i: nat :: i < |ledger| ==> files[FileName(base, i)] == Concat(ledger[i]))
    && (forall name <- files :: Own(base, name) || ParseEntry(base, name).Skipped?)
  }

  ghost predicate Own(base: string, name: string) {
    exists i: nat :: name == FileName(base, i)
  }

  /** The file that the next record goes to. */
  function Extended(st: FileState, ledger: Ledger, data: string): Ledger
    requires IndexFits(st, ledger)
  {
    if st.index == |ledger| then ledger + [[data]]
    else ledger[..st.index] + [ledger[st.index] + [data]]
  }

  lemma ExtendedFlatten(st: FileState, ledger: Ledger, data: string)
    requires IndexFits(st, ledger)
    ensures Flatten(Extended(st, ledger, data)) == Flatten(ledger) + [data]
  {
    var all := Extended(st, ledger, data);
    assert all[..|all| - 1] == ledger[..st.index];
    if st.index == |ledger| {
      assert ledger[..st.index] == ledger;
    }
  }

  lemma DiskAppend(files: map<string, string>, base: string, ledger: Ledger, k: nat, records: seq<string>)
    requires IsDisk(files, base, ledger) && (k == |ledger| || k + 1 == |ledger|)
    ensures IsDisk(files[FileName(base, k) := Concat(records)], base, ledger[..k] + [records])
  {
    hide FileName, ParseEntry, Concat;
    forall i: nat | FileName(base, i) == FileName(base, k) ensures i == k {
      FileNameInjective(base, i, k);
    }
    assert Own(base, FileName(base, k));
  }

  /** Before rotation: the record is at the end of the file with the current index. */
  lemma Appended(st: FileState, ledger: Ledger, data: string, atEnd: bool)
    requires Inv(st, ledger)
    ensures var written := Append(GetFile(st, atEnd), data);
            var all := Extended(st, ledger, data);
            && IsDisk(written.files, st.base, all)
            && st.index + 1 == |all| && written.position <= |Concat(all[st.index])|
            && (data != [] ==> written.position == |Concat(all[st.index])|)
  {
    hide FileName, ParseEntry, IsDisk, Find;
    var all := Extended(st, ledger, data);
    var before := if st.index == |ledger| then [] else ledger[st.index];
    var current, written := GetFile(st, atEnd), Append(GetFile(st, atEnd), data);
    var name := FileName(st.base, st.index);
    CurrentFile(st, ledger);
    ConcatSnoc(before, data);
    DiskAppend(st.files, st.base, ledger, st.index, before + [data]);
    assert ledger[..|ledger|] == ledger && [] + [data] == [data];
    assert all == ledger[..st.index] + [before + [data]];
    assert name in st.files ==> st.files == st.files[name := st.files[name]];
    assert st.index == |ledger| ==> Concat(before) == [];
    assert current.files == st.files[name := Concat(before)];
    assert Concat(before) + [] == Concat(before) && [] + data == data;
    assert written.files == st.files[name := Concat(before + [data])];
  }

  /** The file with the current index has got the record at its end, and every other file of the
      directory is what it was. */
  predicate OnlyCurrentChanges(st: FileState, data: string, st': FileState) {
    var name := FileName(st.base, st.index);
    && st'.files.Keys == st.files.Keys + {name}
    && st'.files[name] == (if name in st.files then st.files[name] else []) + data
    && forall other <- st.files :: other != name ==> st'.files[other] == st.files[other]
  }

  lemma OneFileChanges(st: FileState, data: string, atEnd: bool)
    requires st.open ==> FileName(st.base, st.index) in st.files
    ensures OnlyCurrentChanges(st, data, Write(st, data, atEnd))
  {
    hide FileName;
  }

  /** One record goes to the end of exactly one file, and no other file changes. */
  lemma WriteKeeps(st: FileState, ledger: Ledger, data: string, atEnd: bool)
    requires Inv(st, ledger) && st.index < ULONG_MAX
    ensures Inv(Write(st, data, atEnd), Extended(st, ledger, data))
    ensures Write(st, data, atEnd).base == st.base && Write(st, data, atEnd).rotationSize == st.rotationSize
    ensures OnlyCurrentChanges(st, data, Write(st, data, atEnd))
  {
    hide FileName, ParseEntry, IsDisk, Find, Concat;
    CurrentFile(st, ledger);
    OneFileChanges(st, data, atEnd);
    Appended(st, ledger, data, atEnd);
    var all := Extended(st, ledger, data);
    forall records | records in all ensures records != [] {
      assert records in ledger || records == all[st.index];
    }
  }

  /** What the file with the current index holds. */
  lemma CurrentFile(st: FileState, ledger: Ledger)
    requires Inv(st, ledger)
    ensures FileName(st.base, st.index) in st.files <==> st.index + 1 == |ledger|
    ensures st.index + 1 == |ledger| ==> st.files[FileName(st.base, st.index)] == Concat(ledger[st.index])
    ensures Concat([]) == []
  {
  }

  /** A restart finds the last file, or starts at 0 in a directory without log files. */
  lemma RestartFinds(st: FileState, ledger: Ledger)
    requires Inv(st, ledger) && |ledger| <= ULONG_MAX
    ensures IsLastIndex(st.base, st.files.Keys, Some(if ledger == [] then 0 else |ledger| - 1))
  {
    hide FileName, ParseEntry, Find;
    var last := if ledger == [] then 0 else |ledger| - 1;
    forall name | name in st.files
      ensures ParseEntry(st.base, name).Skipped?
           || (ParseEntry(st.base, name).Index? && ParseEntry(st.base, name).index < |ledger|)
    {
      if Own(st.base, name) {
        var i: nat :| name == FileName(st.base, i);
        OwnNameParses(st.base, i);
      }
    }
    if ledger != [] {
      OwnNameParses(st.base, last);
      assert FileName(st.base, last) in st.files.Keys;
    }
  }

  lemma RestartKeeps(st: FileState, ledger: Ledger, st': FileState, rotationSize: nat)
    requires Inv(st, ledger) && |ledger| <= ULONG_MAX && Next(st, Restart(rotationSize), st')
    ensures Inv(st', ledger) && st'.base == st.base && st'.rotationSize == rotationSize
    ensures st'.index == if ledger == [] then 0 else |ledger| - 1
  {
    hide FileName, ParseEntry, IsDisk, IsLastIndex;
    RestartFinds(st, ledger);
    var index: nat :| IsLastIndex(st.base, st.files.Keys, Some(index)) &&
      st' == st.(rotationSize := rotationSize, index := index, open := false, position := 0);
    LastIndexUnique(st.base, st.files.Keys, Some(index), Some(if ledger == [] then 0 else |ledger| - 1));
  }

  // ----- history -----

  function Records(ops: seq<Op>): seq<string> {
    if ops == [] then []
    else
      var last := ops[|ops| - 1];
      Records(ops[..|ops| - 1]) + if last.Record? then [last.data] else []
  }

  lemma {:induction false} LedgerFits(ledger: Ledger)
    requires forall records <- ledger :: records != []
    ensures |ledger| <= |Flatten(ledger)|
  {
    if ledger != [] {
      var init, last := ledger[..|ledger| - 1], ledger[|ledger| - 1];
      assert last in ledger && forall r <- init :: r in ledger;
      LedgerFits(init);
    }
  }

  /** The files of the directory that are no log files of this base name. */
  ghost predicate SameForeign(st: FileState, st': FileState) {
    && st'.base == st.base
    && (forall name <- st.files :: !Own(st.base, name) ==> name in st'.files && st'.files[name] == st.files[name])
    && (forall name <- st'.files :: !Own(st.base, name) ==> name in st.files)
  }

  lemma ForeignRefl(st: FileState)
    ensures SameForeign(st, st)
  {
  }

  lemma ForeignStep(first: FileState, st: FileState, op: Op, st': FileState, ledger: Ledger)
    requires Inv(st, ledger) && Next(st, op, st') && st.index < ULONG_MAX && |ledger| <= ULONG_MAX
    requires SameForeign(first, st)
    ensures SameForeign(first, st')
  {
    hide FileName, Write, Inv;
    match op
    case Record(data, atEnd) =>
      WriteKeeps(st, ledger, data, atEnd);
      assert Own(st.base, FileName(st.base, st.index));
    case Restart(rotationSize) => RestartKeeps(st, ledger, st', rotationSize);
  }

  /** Over any records and restarts, each with its own rotation size, the ledger of the directory
      grows by exactly the records, in order, and no record is split between two files. */
  lemma {:induction false} History(states: seq<FileState>, ops: seq<Op>, start: Ledger) returns (ledger: Ledger)
    requires Run(states, ops) && Inv(states[0], start)
    requires |Flatten(start)| + |ops| <= ULONG_MAX
    ensures Inv(states[|ops|], ledger) && states[|ops|].base == states[0].base
    ensures Flatten(ledger) == Flatten(start) + Records(ops)
    ensures SameForeign(states[0], states[|ops|])
  {
    hide Inv, Next, Flatten, SameForeign;
    if ops == [] {
      ledger := start;
      assert Flatten(start) + [] == Flatten(start);
      ForeignRefl(states[0]);
    } else {
      var n := |ops| - 1;
      var before, op := states[n], ops[n];
      assert Next(before, op, states[n + 1]);
      var earlier := History(states[..n + 1], ops[..n], start);
      InvFits(before, earlier);
      assert |Records(ops[..n])| <= n by { RecordsLength(ops[..n]); }
      ledger := StepLedger(before, op, states[n + 1], earlier);
      ForeignStep(states[0], before, op, states[n + 1], earlier);
      RecordsLast(ops);
      assert Flatten(start) + Records(ops[..n]) + Records([op]) == Flatten(start) + Records(ops);
    }
  }

  /** The rotation size of the last restart. */
  function LimitGiven(ops: seq<Op>, first: nat): nat {
    if ops == [] then first
    else if ops[|ops| - 1].Restart? then ops[|ops| - 1].rotationSize
    else LimitGiven(ops[..|ops| - 1], first)
  }

  /** The size in force, and the base name, are what the writer was last made with. */
  lemma {:induction false} LimitInForce(states: seq<FileState>, ops: seq<Op>)
    requires Run(states, ops)
    ensures states[|ops|].rotationSize == LimitGiven(ops, states[0].rotationSize)
    ensures states[|ops|].base == states[0].base
  {
    hide FileName, IsLastIndex;
    if ops != [] {
      var n := |ops| - 1;
      assert Next(states[n], ops[n], states[n + 1]);
      LimitInForce(states[..n + 1], ops[..n]);
    }
  }

  lemma RecordsLast(ops: seq<Op>)
    requires ops != []
    ensures Records(ops) == Records(ops[..|ops| - 1]) + Records([ops[|ops| - 1]])
  {
    var op := ops[|ops| - 1];
    assert [op][..0] == [];
    assert Records([op]) == if op.Record? then [op.data] else [];
  }

  lemma {:induction false} RecordsLength(ops: seq<Op>)
    ensures |Records(ops)| <= |ops|
  {
    if ops != [] {
      RecordsLength(ops[..|ops| - 1]);
    }
  }

  lemma InvFits(st: FileState, ledger: Ledger)
    requires Inv(st, ledger)
    ensures |ledger| <= |Flatten(ledger)| && st.index <= |ledger|
  {
    LedgerFits(ledger);
  }

  function NextLedger(st: FileState, op: Op, ledger: Ledger): Ledger
    requires IndexFits(st, ledger)
  {
    if op.Record? then Extended(st, ledger, op.data) else ledger
  }

  lemma StepLedger(st: FileState, op: Op, st': FileState, ledger: Ledger) returns (next: Ledger)
    requires Inv(st, ledger) && Next(st, op, st') && st.index < ULONG_MAX && |ledger| <= ULONG_MAX
    ensures Inv(st', next) && st'.base == st.base
    ensures IndexFits(st, ledger) && next == NextLedger(st, op, ledger)
    ensures Flatten(next) == Flatten(ledger) + Records([op])
  {
    hide Inv, Write, Flatten;
    assert [op][..0] == [];
    InvIndexFits(st, ledger);
    match op
    case Record(data, atEnd) =>
      WriteKeeps(st, ledger, data, atEnd);
      ExtendedFlatten(st, ledger, data);
      next := Extended(st, ledger, data);
    case Restart(rotationSize) =>
      RestartKeeps(st, ledger, st', rotationSize);
      next := ledger;
      assert Flatten(ledger) + [] == Flatten(ledger);
  }

  lemma InvIndexFits(st: FileState, ledger: Ledger)
    requires Inv(st, ledger)
    ensures IndexFits(st, ledger)
  {
  }

  /** The files with the indices below `n`, in index order. */
  function Contents(st: FileState, n: nat): string {
    if n == 0 then []
    else
      var name := FileName(st.base, n - 1);
      Contents(st, n - 1) + if name in st.files then st.files[name] else []
  }

  lemma {:induction false} ContentsOfLedger(st: FileState, ledger: Ledger, n: nat)
    requires Inv(st, ledger) && n <= |ledger|
    ensures Contents(st, n) == Concat(Flatten(ledger[..n]))
  {
    hide FileName, ParseEntry, Find;
    if n > 0 {
      ContentsOfLedger(st, ledger, n - 1);
      assert ledger[..n][..n - 1] == ledger[..n - 1];
      ConcatAppend(Flatten(ledger[..n - 1]), ledger[n - 1]);
      assert FileName(st.base, n - 1) in st.files;
    }
  }

  /** The log on disk is the history of writes: in a directory that held no log file, after any
      records and restarts, the existing indices are contiguous from 0 and the files in index
      order hold exactly the records in order. */
  lemma LogIsHistory(states: seq<FileState>, ops: seq<Op>)
    requires Run(states, ops) && Inv(states[0], []) && |ops| <= ULONG_MAX
    ensures exists k: nat :: LogHolds(states[|ops|], k, Concat(Records(ops)))
  {
    hide Inv, Next, SameForeign, FileName, Concat, Contents;
    NoRecordsYet();
    var ledger := History(states, ops, []);
    assert [] + Records(ops) == Records(ops);
    ContentsOfLedger(states[|ops|], ledger, |ledger|);
    assert ledger[..|ledger|] == ledger;
    InvIndices(states[|ops|], ledger);
    assert LogHolds(states[|ops|], |ledger|, Concat(Records(ops)));
  }

  lemma NoRecordsYet()
    ensures Flatten([]) == []
  {
  }

  ghost predicate LogHolds(st: FileState, k: nat, text: string) {
    (forall i: nat :: FileName(st.base, i) in st.files <==> i < k) && Contents(st, k) == text
  }

  lemma InvIndices(st: FileState, ledger: Ledger)
    requires Inv(st, ledger)
    ensures forall i: nat :: FileName(st.base, i) in st.files <==> i < |ledger|
  {
  }

  // ----- rotation -----

  /** The records of a file that were written when the file was already larger than `limit`. */
  function LateIn(records: seq<string>, limit: nat): nat {
    if records == [] then 0
    else
      var init, last := records[..|records| - 1], records[|records| - 1];
      LateIn(init, limit) + if last != [] && |Concat(init)| > limit then 1 else 0
  }

  /** The next record would go to a file that is already too large. */
  predicate Overfull(st: FileState, ledger: Ledger, limit: nat) {
    st.index + 1 == |ledger| && |Concat(ledger[st.index])| > limit
  }

  /** The late records of file `i`, and one more if the next record is due to be late in it. */
  function Charge(st: FileState, ledger: Ledger, i: nat, limit: nat): nat {
    (if i < |ledger| then LateIn(ledger[i], limit) else 0)
    + if i == st.index && Overfull(st, ledger, limit) then 1 else 0
  }

  /** A restart that goes on with file `i`, which is already larger than `limit`. */
  predicate ReopensLarge(op: Op, st': FileState, i: nat, limit: nat) {
    var name := FileName(st'.base, i);
    op.Restart? && st'.index == i && name in st'.files && |st'.files[name]| > limit
  }

  function Reopens(states: seq<FileState>, ops: seq<Op>, i: nat, limit: nat): nat
    requires |states| == |ops| + 1
  {
    if ops == [] then 0
    else
      var n := |ops| - 1;
      Reopens(states[..n + 1], ops[..n], i, limit) + if ReopensLarge(ops[n], states[n + 1], i, limit) then 1 else 0
  }

  /** Every file before the current one exceeds the limit, except those that the run found
      already closed and small. */
  predicate Closed(st: FileState, ledger: Ledger, first: nat, start: Ledger, limit: nat) {
    forall i :: 0 <= i < |ledger| && i < st.index && !(i < first && i < |start| && |Concat(start[i])| <= limit) ==>
      |Concat(ledger[i])| > limit
  }

  lemma StartIsClosed(st: FileState, start: Ledger, limit: nat)
    ensures Closed(st, start, st.index, start, limit)
  {
  }

  lemma NoBytes()
    ensures Concat([]) == []
  {
  }

  lemma LateSnoc(records: seq<string>, data: string, limit: nat)
    ensures LateIn(records + [data], limit)
         == LateIn(records, limit) + if data != [] && |Concat(records)| > limit then 1 else 0
  {
    assert (records + [data])[..|records|] == records;
  }

  /** What a record does to the file that it goes to, and that the other files keep. */
  lemma ExtendedFiles(st: FileState, ledger: Ledger, data: string)
    requires IndexFits(st, ledger)
    ensures |Extended(st, ledger, data)| == st.index + 1
    ensures Extended(st, ledger, data)[st.index] == CurrentRecords(st, ledger) + [data]
    ensures Concat(Extended(st, ledger, data)[st.index]) == Concat(CurrentRecords(st, ledger)) + data
    ensures forall i :: 0 <= i < st.index ==> Extended(st, ledger, data)[i] == ledger[i]
  {
    ConcatSnoc(CurrentRecords(st, ledger), data);
  }

  function CurrentRecords(st: FileState, ledger: Ledger): seq<string>
    requires IndexFits(st, ledger)
  {
    if st.index == |ledger| then [] else ledger[st.index]
  }

  lemma RecordCharge(st: FileState, ledger: Ledger, data: string, atEnd: bool, i: nat)
    requires Inv(st, ledger) && st.index < ULONG_MAX
    ensures Charge(Write(st, data, atEnd), Extended(st, ledger, data), i, st.rotationSize)
         <= Charge(st, ledger, i, st.rotationSize)
  {
    hide FileName, ParseEntry, IsDisk, LateIn, Find, Concat, Extended;
    var before := CurrentRecords(st, ledger);
    Appended(st, ledger, data, atEnd);
    ExtendedFiles(st, ledger, data);
    LateSnoc(before, data, st.rotationSize);
    NoBytes();
    NeverLate(st.rotationSize);
    assert data == [] ==> Concat(before) + data == Concat(before);
  }

  lemma NeverLate(limit: nat)
    ensures LateIn([], limit) == 0
  {
  }

  lemma RecordCloses(st: FileState, ledger: Ledger, data: string, atEnd: bool, first: nat, start: Ledger)
    requires Inv(st, ledger) && st.index < ULONG_MAX && Closed(st, ledger, first, start, st.rotationSize)
    ensures Closed(Write(st, data, atEnd), Extended(st, ledger, data), first, start, st.rotationSize)
  {
    hide FileName, ParseEntry, IsDisk, Find, Concat, Extended;
    Appended(st, ledger, data, atEnd);
    ExtendedFiles(st, ledger, data);
  }

  lemma RestartCharge(st: FileState, ledger: Ledger, rotationSize: nat, st': FileState, i: nat)
    requires Inv(st, ledger) && |ledger| <= ULONG_MAX && Next(st, Restart(rotationSize), st')
    ensures Charge(st', ledger, i, rotationSize)
         <= Charge(st, ledger, i, rotationSize)
            + if ReopensLarge(Restart(rotationSize), st', i, rotationSize) then 1 else 0
  {
    hide Inv, Next, FileName, LateIn, Concat;
    RestartKeeps(st, ledger, st', rotationSize);
    CurrentFile(st', ledger);
  }

  lemma StepRotation(st: FileState, op: Op, st': FileState, ledger: Ledger, i: nat)
    requires Inv(st, ledger) && Next(st, op, st') && st.index < ULONG_MAX && |ledger| <= ULONG_MAX
    requires op.Restart? ==> op.rotationSize == st.rotationSize
    requires IndexFits(st, ledger)
    ensures Charge(st', NextLedger(st, op, ledger), i, st.rotationSize)
         <= Charge(st, ledger, i, st.rotationSize) + if ReopensLarge(op, st', i, st.rotationSize) then 1 else 0
  {
    hide Inv, Charge, Write, Extended;
    match op
    case Record(data, atEnd) => RecordCharge(st, ledger, data, atEnd, i);
    case Restart(rotationSize) => RestartCharge(st, ledger, rotationSize, st', i);
  }

  lemma StepCloses(st: FileState, op: Op, st': FileState, ledger: Ledger, first: nat, start: Ledger)
    requires Inv(st, ledger) && Next(st, op, st') && st.index < ULONG_MAX && |ledger| <= ULONG_MAX
    requires op.Restart? ==> op.rotationSize == st.rotationSize
    requires IndexFits(st, ledger) && Closed(st, ledger, first, start, st.rotationSize)
    ensures Closed(st', NextLedger(st, op, ledger), first, start, st.rotationSize)
    ensures st'.rotationSize == st.rotationSize
  {
    hide Inv, Write, Extended, Concat;
    match op
    case Record(data, atEnd) =>
      WriteKeeps(st, ledger, data, atEnd);
      RecordCloses(st, ledger, data, atEnd, first, start);
    case Restart(rotationSize) => RestartKeeps(st, ledger, st', rotationSize);
  }

  /** Rotation with a fixed size, from any directory of own files. For every file: the records
      that went to it when it already exceeded the size are at most one for each restart that
      reopened it in that state, beside what the start allows. Every file that is left behind
      exceeds the size. */
  lemma {:induction false} RotationBound(states: seq<FileState>, ops: seq<Op>, start: Ledger, limit: nat)
    returns (ledger: Ledger)
    requires Run(states, ops) && Inv(states[0], start) && states[0].rotationSize == limit
    requires |Flatten(start)| + |ops| <= ULONG_MAX
    requires forall op <- ops :: op.Restart? ==> op.rotationSize == limit
    ensures Inv(states[|ops|], ledger) && states[|ops|].rotationSize == limit
    ensures Flatten(ledger) == Flatten(start) + Records(ops)
    ensures forall i: nat ::
              Charge(states[|ops|], ledger, i, limit)
              <= Charge(states[0], start, i, limit) + Reopens(states, ops, i, limit)
    ensures Closed(states[|ops|], ledger, states[0].index, start, limit)
  {
    hide Inv, Next, Flatten, Extended, Charge, Closed, ReopensLarge;
    if ops == [] {
      ledger := start;
      assert Flatten(start) + [] == Flatten(start);
      StartIsClosed(states[0], start, limit);
    } else {
      var n := |ops| - 1;
      var before, op, after := states[n], ops[n], states[n + 1];
      assert op in ops && Next(before, op, after);
      var earlier := RotationBound(states[..n + 1], ops[..n], start, limit);
      InvFits(before, earlier);
      InvIndexFits(before, earlier);
      RecordsLength(ops[..n]);
      ledger := StepLedger(before, op, after, earlier);
      RecordsLast(ops);
      assert Flatten(start) + Records(ops[..n]) + Records([op]) == Flatten(start) + Records(ops);
      StepCloses(before, op, after, earlier, states[0].index, start);
      forall i: nat
        ensures Charge(after, ledger, i, limit) <= Charge(states[0], start, i, limit) + Reopens(states, ops, i, limit)
      {
        StepRotation(before, op, after, earlier, i);
      }
    }
  }

  /** The length of the last record that is not empty. */
  function LastSize(records: seq<string>): nat {
    if records == [] then 0
    else if records[|records| - 1] != [] then |records[|records| - 1]|
    else LastSize(records[..|records| - 1])
  }

  lemma {:induction false} InTime(records: seq<string>, limit: nat)
    requires LateIn(records, limit) == 0
    ensures |Concat(records)| <= limit + LastSize(records)
  {
    if records == [] {
      NoBytes();
    } else {
      var init, last := records[..|records| - 1], records[|records| - 1];
      assert records == init + [last];
      ConcatSnoc(init, last);
      InTime(init, limit);
    }
  }

  /** In any run, with any restarts: a file that the run made, and that no restart reopened when
      it already exceeded the rotation size, is at most that size plus its last record. */
  lemma NeverReopened(states: seq<FileState>, ops: seq<Op>, start: Ledger, limit: nat, i: nat) returns (ledger: Ledger)
    requires Run(states, ops) && Inv(states[0], start) && states[0].rotationSize == limit
    requires |Flatten(start)| + |ops| <= ULONG_MAX
    requires forall op <- ops :: op.Restart? ==> op.rotationSize == limit
    requires |start| <= i && Reopens(states, ops, i, limit) == 0
    ensures Inv(states[|ops|], ledger) && Flatten(ledger) == Flatten(start) + Records(ops)
    ensures i < |ledger| ==> |Concat(ledger[i])| <= limit + LastSize(ledger[i])
  {
    hide Next, Inv, Flatten, Concat, LateIn, Records, Reopens;
    ledger := RotationBound(states, ops, start, limit);
    assert Charge(states[0], start, i, limit) == 0;
    if i < |ledger| {
      InTime(ledger[i], limit);
    }
  }
}
