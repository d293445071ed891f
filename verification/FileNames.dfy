/** The names of the log files: `getFile` prints an index into a name, `getLastFileIndex` reads it
    back. */
module FileNames {
  import opened CText

  const FILE_EXTENSION: string := ".log"
  const ULONG_MAX: nat := 0xFFFF_FFFF_FFFF_FFFF

  function FileName(base: string, index: nat): string {
    base + "_" + Print(index) + FILE_EXTENSION
  }

  lemma FileNameIs(base: string, index: nat)
    ensures FileName(base, index) == base + ("_" + Print(index) + ".log")
    ensures index < 10 ==> FileName(base, index) == base + ['_', '0' + index as char, '.', 'l', 'o', 'g']
  {
    Assoc(base, "_", Print(index));
    Assoc(base, "_" + Print(index), ".log");
  }

  /** `lexical_cast<unsigned long>`: an optional sign, digits and nothing else, no overflow. */
  function LexicalCast(s: string): Option<nat> {
    var signed := s != [] && (s[0] == '-' || s[0] == '+');
    var digits := if signed then s[1..] else s;
    if digits == [] || !AllDigits(digits) || ReadDigits(digits, 0) > ULONG_MAX then None
    else if signed && s[0] == '-' then Some((ULONG_MAX + 1 - ReadDigits(digits, 0)) % (ULONG_MAX + 1))
    else Some(ReadDigits(digits, 0))
  }

  /** `std::string::substr`; the count is an unsigned difference that may have wrapped. */
  function Substr(s: string, from: nat, count: int): string
    requires from <= |s|
  {
    if count < 0 || count >= |s| - from then s[from..] else s[from..from + count]
  }

  /** A directory entry is passed over, gives an index, or makes `lexical_cast` throw. */
  datatype Entry = Skipped | Index(index: nat) | BadName

  function ParseEntry(base: string, name: string): Entry {
    match (Find(name, base + "_"), Find(name, FILE_EXTENSION))
    case (Some(foundName), Some(foundExtension)) =>
      (match LexicalCast(Substr(name, foundName + |base| + 1, foundExtension - (|base| + 1)))
       case Some(index) => Index(index)
       case None => BadName)
    case _ => Skipped
  }

  /** The only ".log" after the base name is the extension itself. */
  lemma ExtensionPlace(base: string, index: nat, i: nat)
    requires OccursAt(FileName(base, index), FILE_EXTENSION, i)
    ensures i == |base| + 1 + |Print(index)| || OccursAt(base, FILE_EXTENSION, i)
  {
    var name := FileName(base, index);
    var end := |base| + 1 + |Print(index)|;
    assert name == base + (("_" + Print(index)) + FILE_EXTENSION);
    assert forall p :: |base| <= p < end ==> name[p] == ("_" + Print(index))[p - |base|];
    assert forall p :: |base| <= p < end ==> name[p] == '_' || IsDigit(name[p]);
    var found := name[i..i + 4];
    assert name[i] == found[0] == '.' && name[i + 1] == found[1] == 'l';
    assert name[i + 2] == found[2] == 'o' && name[i + 3] == found[3] == 'g';
    if i + 4 <= |base| {
      assert base[i..i + 4] == found;
    }
  }

  lemma FindExtension(base: string, index: nat)
    ensures Find(FileName(base, index), FILE_EXTENSION)
         == if Find(base, FILE_EXTENSION).Some? then Find(base, FILE_EXTENSION) else Some(|base| + 1 + |Print(index)|)
  {
    var name := FileName(base, index);
    var end := |base| + 1 + |Print(index)|;
    assert OccursAt(name, FILE_EXTENSION, end);
    var found := Find(name, FILE_EXTENSION).value;
    ExtensionPlace(base, index, found);
    if Find(base, FILE_EXTENSION).Some? {
      var e := Find(base, FILE_EXTENSION).value;
      assert name[e..e + 4] == base[e..e + 4];
      assert OccursAt(name, FILE_EXTENSION, e);
    }
  }

  lemma CastOfPrint(index: nat)
    requires index <= ULONG_MAX
    ensures LexicalCast(Print(index)) == Some(index)
  {
    assert IsDigit(Print(index)[0]);
    ReadInvertsPrint(index);
  }

  /** What the cast makes of any number, with and without a sign: 64 bits, and a minus wraps. */
  lemma CastReads(n: nat)
    ensures LexicalCast(Print(n)) == LexicalCast("+" + Print(n))
         == if n < 0x1_0000_0000_0000_0000 then Some(n) else None
    ensures LexicalCast("-" + Print(n))
         == if n >= 0x1_0000_0000_0000_0000 then None
            else if n == 0 then Some(0) else Some(0x1_0000_0000_0000_0000 - n)
  {
    ReadInvertsPrint(n);
    assert IsDigit(Print(n)[0]);
    assert ("+" + Print(n))[1..] == Print(n) == ("-" + Print(n))[1..];
  }

  lemma CastRejects(s: string, i: nat)
    requires i < |s| && !IsDigit(s[i]) && s[i] != '-' && s[i] != '+'
    ensures LexicalCast(s).None?
  {
    if s[0] == '-' || s[0] == '+' {
      assert s[1..][i - 1] == s[i];
    }
  }

  lemma FindBase(base: string, index: nat)
    ensures Find(FileName(base, index), base + "_") == Some(0)
  {
    assert FileName(base, index)[..|base| + 1] == base + "_";
    FindIs(FileName(base, index), base + "_", 0);
  }

  /** The index that `getFile` printed is read back exactly when the base name does not contain
      ".log"; otherwise the constructor throws. */
  lemma OwnNameParses(base: string, index: nat)
    requires index <= ULONG_MAX
    ensures ParseEntry(base, FileName(base, index))
         == if Find(base, FILE_EXTENSION).None? then Index(index) else BadName
  {
    hide Print, LexicalCast, Find;
    var name := FileName(base, index);
    var from := |base| + 1;
    FindBase(base, index);
    FindExtension(base, index);
    if Find(base, FILE_EXTENSION).None? {
      assert name[from..from + |Print(index)|] == Print(index);
      CastOfPrint(index);
    } else {
      var rest := name[from..];
      assert rest == Print(index) + FILE_EXTENSION;
      CastRejects(rest, |Print(index)|);
    }
  }

  lemma FrontFound(front: string, base: string, index: nat)
    ensures front + FileName(base, index) == FileName(front + base, index)
    ensures Find(FileName(front + base, index), base + "_").Some?
    ensures Find(FileName(front + base, index), base + "_").value <= |front|
  {
    var name := FileName(front + base, index);
    assert name[|front|..|front| + |base| + 1] == base + "_";
    assert OccursAt(name, base + "_", |front|);
  }

  /** A file of another log whose base name ends with this base name: the constructor throws
      exactly when something stands in front. */
  lemma SiblingNameParses(front: string, base: string, index: nat)
    requires index <= ULONG_MAX && Find(front + base, FILE_EXTENSION).None?
    ensures ParseEntry(base, front + FileName(base, index)) == if front == [] then Index(index) else BadName
  {
    hide Find, FileName, LexicalCast, Substr;
    FrontFound(front, base, index);
    FindExtension(front + base, index);
    if front == [] {
      assert front + base == base;
      OwnNameParses(base, index);
    } else {
      SiblingCastFails(front, base, index, Find(FileName(front + base, index), base + "_").value);
    }
  }

  /** The text that is cast then covers the "_" or the "." next to the index. */
  lemma SiblingCastFails(front: string, base: string, index: nat, f: nat)
    requires front != [] && f <= |front|
    ensures LexicalCast(Substr(FileName(front + base, index), f + |base| + 1, |front| + |Print(index)|)).None?
  {
    hide LexicalCast;
    var name := FileName(front + base, index);
    var s := Substr(name, f + |base| + 1, |front| + |Print(index)|);
    var i := if f == 0 then |front| - 1 else |front| + |Print(index)| - f;
    assert s[i] == name[f + |base| + 1 + i];
    assert s[i] == if f == 0 then '_' else '.';
    CastRejects(s, i);
  }

  lemma FileNameInjective(base: string, i: nat, j: nat)
    requires FileName(base, i) == FileName(base, j)
    ensures i == j
  {
    var a, b := FileName(base, i), FileName(base, j);
    assert |Print(i)| == |Print(j)|;
    assert a[|base| + 1..|base| + 1 + |Print(i)|] == Print(i);
    assert b[|base| + 1..|base| + 1 + |Print(j)|] == Print(j);
    PrintInjective(i, j);
  }

  // ----- the largest index of a directory -----

  ghost predicate HasIndex(base: string, names: set<string>, index: nat) {
    exists name <- names :: ParseEntry(base, name) == Index(index)
  }

  ghost predicate Throws(base: string, names: set<string>) {
    exists name <- names :: ParseEntry(base, name).BadName?
  }

  /** `r` is what `getLastFileIndex` gives for a directory with these regular files: nothing when
      it throws, else the largest index, or 0 when no file has one. */
  ghost predicate IsLastIndex(base: string, names: set<string>, r: Option<nat>) {
    match r
    case None => Throws(base, names)
    case Some(index) =>
      && !Throws(base, names)
      && (forall i: nat :: HasIndex(base, names, i) ==> i <= index)
      && (index == 0 || HasIndex(base, names, index))
  }

  lemma LastIndexUnique(base: string, names: set<string>, r: Option<nat>, q: Option<nat>)
    requires IsLastIndex(base, names, r) && IsLastIndex(base, names, q)
    ensures r == q
  {
    hide ParseEntry;
    if r.Some? && q.Some? {
      assert HasIndex(base, names, r.value) ==> r.value <= q.value;
      assert HasIndex(base, names, q.value) ==> q.value <= r.value;
    }
  }

  /** In a directory with own files and files that are passed over, the constructor works unless
      there is an own file and the base name contains ".log". */
  lemma RestartThrows(base: string, names: set<string>)
    requires forall name <- names ::
      ParseEntry(base, name).Skipped? || exists i: nat :: i <= ULONG_MAX && name == FileName(base, i)
    ensures Throws(base, names)
       <==> Find(base, FILE_EXTENSION).Some? && exists i: nat :: i <= ULONG_MAX && FileName(base, i) in names
  {
    hide ParseEntry, FileName, Find;
    forall i: nat | i <= ULONG_MAX && FileName(base, i) in names
      ensures ParseEntry(base, FileName(base, i)).BadName? <==> Find(base, FILE_EXTENSION).Some?
    {
      OwnNameParses(base, i);
    }
  }
}
