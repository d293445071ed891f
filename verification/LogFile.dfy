/** `Log::File`, proved to do what `LogFileModel` says, on a directory that outlives it. */
module LogFiles {
  import opened CText
  import opened FileNames
  import F = LogFileModel

  /** The directory of `directoryPath_`: regular files with their contents, and other entries. */
  class Directory {
    var present: bool
    var files: map<string, string>
    var others: set<string>

    ghost predicate Valid()
      reads this
    {
      (!present ==> files == map[] && others == {}) && files.Keys !! others
    }
  }

  /** The loop of `getLastFileIndex`, over the entries in any order; `None` when `lexical_cast`
      throws. */
  method GetLastFileIndex(directory: Directory, fileName: string) returns (r: Option<nat>)
    requires directory.Valid()
    ensures IsLastIndex(fileName, directory.files.Keys, r)
  {
    if !directory.present {
      return Some(0);
    }
    var currentFileIndex := 0;
    var files := directory.files.Keys;
    var entries := files + directory.others;
    ghost var visited: set<string> := {};
    while entries != {}
      invariant files - visited <= entries && visited <= files
      invariant visited !! entries
      invariant IsLastIndex(fileName, visited, Some(currentFileIndex))
      decreases entries
    {
      var entry :| entry in entries;
      entries := entries - {entry};
      if entry !in files {
        continue;
      }
      var newIndex := ReadEntry(fileName, entry);
      ExtendLastIndex(fileName, visited, entry, currentFileIndex);
      visited := visited + {entry};
      match newIndex
      case Skipped =>
      case BadName => return None;
      case Index(index) =>
        if currentFileIndex < index {
          currentFileIndex := index;
        }
    }
    assert visited == files;
    r := Some(currentFileIndex);
  }

  /** The body of the loop for a regular file. */
  method ReadEntry(fileName: string, entry: string) returns (r: Entry)
    ensures r == ParseEntry(fileName, entry)
  {
    hide LexicalCast, Find, Substr;
    var foundName := Find(entry, fileName + "_");
    if foundName.None? {
      return Skipped;
    }
    var foundExtension := Find(entry, FILE_EXTENSION);
    if foundExtension.None? {
      return Skipped;
    }
    var index := Substr(entry, foundName.value + |fileName| + 1, foundExtension.value - (|fileName| + 1));
    var newIndex := LexicalCast(index);
    r := if newIndex.Some? then Index(newIndex.value) else BadName;
  }

  /** The running maximum after one more entry. */
  lemma ExtendLastIndex(base: string, visited: set<string>, entry: string, index: nat)
    requires IsLastIndex(base, visited, Some(index)) && entry !in visited
    ensures var more := visited + {entry};
            match ParseEntry(base, entry)
            case Skipped => IsLastIndex(base, more, Some(index))
            case BadName => forall all :: more <= all ==> IsLastIndex(base, all, None)
            case Index(i) => IsLastIndex(base, more, Some(if index < i then i else index))
  {
    hide ParseEntry;
    var more := visited + {entry};
    assert forall i: nat ::
             HasIndex(base, more, i) <==> HasIndex(base, visited, i) || ParseEntry(base, entry) == Index(i);
    assert Throws(base, more) <==> Throws(base, visited) || ParseEntry(base, entry).BadName?;
    forall all | more <= all && ParseEntry(base, entry).BadName? ensures IsLastIndex(base, all, None) {
      assert entry in all;
    }
  }

  class File {
    const directory: Directory
    const fileName: string
    const rotationSize: nat

    /** The position of the open stream, if there is one. */
    var currentFile: Option<nat>
    var currentFileIndex: nat

    /** The open file is in the directory, and no other entry has the name of a log file. */
    ghost predicate Valid()
      reads this, directory
    {
      && directory.Valid()
      && (currentFile.Some? ==> directory.present && FileName(fileName, currentFileIndex) in directory.files)
      && (forall i: nat :: FileName(fileName, i) !in directory.others)
    }

    ghost function View(): F.FileState
      reads this, directory
    {
      F.FileState(directory.files, fileName, rotationSize, currentFileIndex, currentFile.Some?,
                  if currentFile.Some? then currentFile.value else 0)
    }

    constructor (directory: Directory, fileName: string, rotationSize: nat, index: nat)
      requires directory.Valid() && forall i: nat :: FileName(fileName, i) !in directory.others
      ensures Valid() && this.directory == directory
      ensures View() == F.FileState(directory.files, fileName, rotationSize, index, false, 0)
    {
      this.directory := directory;
      this.fileName := fileName;
      this.rotationSize := rotationSize;
      currentFile := None;
      currentFileIndex := index;
    }

    method Write(data: string, atEnd: bool)
      requires Valid()
      modifies this, directory
      ensures Valid() && directory.files.Keys == old(directory.files.Keys) + {FileName(fileName, old(currentFileIndex))}
      ensures View() == F.Write(old(View()), data, atEnd)
    {
      hide FileName;
      GetFile(atEnd);
      var name := FileName(fileName, currentFileIndex);
      assert name in directory.files;
      if data != [] {
        directory.files := directory.files[name := directory.files[name] + data];
        currentFile := Some(|directory.files[name]|);
      }
      Rotate();
    }

    method Rotate()
      requires Valid()
      modifies this
      ensures Valid() && View() == F.Rotate(old(View()))
    {
      hide FileName;
      if currentFile.None? {
        return;
      }
      if currentFile.value > rotationSize {
        currentFile := None;
        currentFileIndex := if currentFileIndex == ULONG_MAX then 0 else currentFileIndex + 1;
      }
    }

    method GetFile(atEnd: bool)
      requires Valid()
      modifies this, directory
      ensures Valid() && currentFile.Some?
      ensures View() == F.GetFile(old(View()), atEnd)
    {
      hide FileName;
      if currentFile.Some? {
        return;
      }
      if !directory.present {
        directory.present := true;
      }
      var realFileName := FileName(fileName, currentFileIndex);
      if realFileName in directory.files {
        currentFile := Some(if atEnd then |directory.files[realFileName]| else 0);
      } else {
        directory.files := directory.files[realFileName := []];
        currentFile := Some(0);
      }
    }
  }

  /** The constructor of `Log::File`; no object when it throws. */
  method Open(directory: Directory, fileName: string, rotationSize: nat) returns (file: File?)
    requires directory.Valid() && forall i: nat :: FileName(fileName, i) !in directory.others
    ensures file == null <==> Throws(fileName, directory.files.Keys)
    ensures file != null ==>
      && fresh(file) && file.Valid() && file.directory == directory && file.currentFile.None?
      && file.fileName == fileName && file.rotationSize == rotationSize
      && IsLastIndex(fileName, directory.files.Keys, Some(file.currentFileIndex))
      && F.Next(F.FileState(directory.files, fileName, rotationSize, 0, false, 0), F.Restart(rotationSize), file.View())
  {
    var index := GetLastFileIndex(directory, fileName);
    if index.None? {
      return null;
    }
    file := new File(directory, fileName, rotationSize, index.value);
    assert IsLastIndex(fileName, directory.files.Keys, Some(index.value));
  }
}
