/** `Log::LogProcessor`. Each method is proved to be the steps of `PipelineModel` that it names, taken
    without another thread in between. */
module LogProcessors {
  import opened CText
  import opened Formatter
  import opened Pipes
  import opened LogFiles
  import FileNames
  import F = LogFileModel
  import P = PipelineModel

  /** History: texts written to the pipe, records given to the file, records dropped. */
  datatype Log = Log(accepted: seq<P.Entry>, stored: seq<string>, lost: seq<string>)

  class LogProcessor {
    const pipe: Pipe
    var file: File?
    var format: string
    var started: bool
    ghost var log: Log

    ghost predicate Valid()
      reads this, file, if file == null then {} else {file.directory}
    {
      file != null ==> file.Valid() && started
    }

    ghost function FileView(): Option<F.FileState>
      reads this, file, if file == null then {} else {file.directory}
    {
      if file == null then None else Some(file.View())
    }

    ghost function View(): P.Processor
      reads this, pipe, file, if file == null then {} else {file.directory}
    {
      P.INITIAL.(started := started, format := format, file := FileView(), pipe := pipe.bytes,
                 accepted := log.accepted, stored := log.stored, lost := log.lost)
    }

    constructor ()
      ensures Valid() && fresh(pipe) && View() == P.INITIAL
    {
      pipe := new Pipe();
      file := null;
      format := "";
      started := false;
      log := Log([], [], []);
    }

    /** `init`: the reader thread starts first; the file stays unset when its constructor throws. */
    method Init(directory: Directory, fileName: string, format: string, rotationSize: nat)
      requires Valid() && !started && directory.Valid()
      requires forall i: nat :: FileNames.FileName(fileName, i) !in directory.others
      modifies this
      ensures Valid()
      ensures file == null <==> FileNames.Throws(fileName, directory.files.Keys)
      ensures file != null ==> fresh(file) && file.directory == directory
      ensures file != null ==>
        && file.fileName == fileName && file.rotationSize == rotationSize && file.currentFile.None?
        && FileNames.IsLastIndex(fileName, directory.files.Keys, Some(file.currentFileIndex))
      ensures started && this.format == format && pipe.bytes == old(pipe.bytes)
      ensures var thread := P.Apply(old(View()), P.StartThread(format));
              View() == if file == null then thread else P.Apply(thread, P.SetFile(file.View()))
    {
      hide FileNames.FileName, FileNames.Throws, FileNames.IsLastIndex, F.Next;
      this.format := format;
      started := true;
      file := Open(directory, fileName, rotationSize);
    }

    /** `operator+=`; `thrown` when `formatMessage` throws. */
    method Add(thread: nat, message: LogMessage) returns (thrown: bool)
      requires Valid()
      modifies `log, pipe
      ensures Valid()
      ensures thrown <==> file != null && Format(format, message).None?
      ensures pipe.bytes == old(pipe.bytes)
           + if file == null || thrown then [] else RecordOf(Format(format, message).value)
      ensures var checked := P.Apply(old(View()), P.Log(thread, message));
              View() == if checked.formatted == [] then checked else P.Apply(checked, P.WriteToPipe(0))
    {
      hide Format;
      if file != null {
        var textMessage := FormatMessage(format, message);
        if textMessage.None? {
          return true;
        }
        ghost var e := P.Entry(thread, textMessage.value);
        log := log.(accepted := log.accepted + [e]);
        pipe.Write(textMessage.value);
        assert [e][..0] + [e][1..] == [];
      }
      return false;
    }

    method WriteToFile(message: string, atEnd: bool)
      requires Valid()
      modifies `log, file, if file == null then {} else {file.directory}
      ensures Valid()
      ensures View() == P.OnWriteToFile(old(View()).(hand := Some(message)), atEnd)
    {
      hide F.Write;
      if file != null {
        log := log.(stored := log.stored + [message]);
        file.Write(message, atEnd);
      } else {
        log := log.(lost := log.lost + [message]);
      }
    }

    /** One round of the endless loop of `readFromPipe`; `false` when it still waits for bytes. */
    method ReadFromPipe(atEnd: bool, ghost memory: P.Memory) returns (done: bool)
      requires Valid() && started
      modifies `log, pipe, file, if file == null then {} else {file.directory}
      ensures Valid() && done == (|old(pipe.bytes)| >= BUFFER_SIZE)
      ensures done ==> View() == P.Apply(P.Apply(old(View()), P.ReadPiece(memory)), P.WriteToFile(atEnd))
      ensures old(pipe.bytes) == [] ==> View() == old(View())
    {
      hide F.Write, P.OnWriteToFile;
      var before := pipe.bytes;
      var message := pipe.Read();
      if message.None? {
        return false;
      }
      assert before[..BUFFER_SIZE] + memory[BUFFER_SIZE..] == before[..BUFFER_SIZE];
      assert View().(hand := message) == P.Apply(old(View()), P.ReadPiece(memory));
      WriteToFile(message.value, atEnd);
      return true;
    }
  }
}
