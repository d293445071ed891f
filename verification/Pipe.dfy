/** `Log::Pipe`: fixed records of 256 bytes through an operating-system pipe. */
module Pipes {
  import opened CText

  const BUFFER_SIZE: nat := 256

  function Min(a: nat, b: nat): nat {
    if a < b then a else b
  }

  /** The buffer that `write` makes of a string: at most 255 bytes, then NULs. */
  function RecordOf(data: string): (r: string)
    ensures |r| == BUFFER_SIZE && r[BUFFER_SIZE - 1] == NUL
  {
    data[..Min(|data|, BUFFER_SIZE - 1)] + Repeat(NUL, BUFFER_SIZE - Min(|data|, BUFFER_SIZE - 1))
  }

  /** What survives of a string: cut at 255 bytes and at its first NUL. */
  function Cut(data: string): string {
    UpToNul(data[..Min(|data|, BUFFER_SIZE - 1)])
  }

  lemma RecordCut(data: string)
    ensures UpToNul(RecordOf(data)) == Cut(data)
  {
    var kept := data[..Min(|data|, BUFFER_SIZE - 1)];
    var r := RecordOf(data);
    assert kept <= r;
    assert |kept| < |r| && r[|kept|] == NUL;
    UpToNulUnique(r, Cut(data));
  }

  /** The cut is the longest part without a NUL in the first 255 bytes. */
  lemma CutIsLongest(data: string)
    ensures Cut(data) <= data && |Cut(data)| <= 255 && NUL !in Cut(data)
    ensures forall n :: 0 <= n <= |data| && n <= 255 && NUL !in data[..n] ==> n <= |Cut(data)|
  {
    var kept := data[..Min(|data|, BUFFER_SIZE - 1)];
    var c := |Cut(data)|;
    assert c < |kept| ==> data[c] == kept[c] == NUL;
    forall n | 0 <= n <= |data| && n <= 255 && NUL !in data[..n] ensures n <= c {
      assert forall i :: 0 <= i < n ==> data[..n][i] == data[i] != NUL;
    }
  }

  lemma CutKeeps(data: string)
    ensures Cut(data) == data <==> |data| < 256 && NUL !in data
    ensures Cut(data) <= data && |Cut(data)| <= 255 && NUL !in Cut(data)
    ensures forall n :: 0 <= n <= |data| && n <= 255 && NUL !in data[..n] ==> n <= |Cut(data)|
  {
    CutIsLongest(data);
    if |data| < BUFFER_SIZE && NUL !in data {
      assert data[..|data|] == data;
      UpToNulUnique(data, data);
    }
  }

  /** The kernel's side of the pipe. A write of at most PIPE_BUF bytes is atomic, and a read
      gets what is there, at most what it asks for (POSIX.1-2017, `write()` and `read()`). */
  class Pipe {
    var bytes: string

    constructor ()
      ensures bytes == []
    {
      bytes := [];
    }

    method Write(data: string)
      modifies this
      ensures bytes == old(bytes) + RecordOf(data)
    {
      var buffer := new char[BUFFER_SIZE](_ => NUL);
      var n := Min(|data|, BUFFER_SIZE - 1);
      forall i | 0 <= i < n {
        buffer[i] := data[i];
      }
      assert buffer[..] == RecordOf(data);
      bytes := bytes + buffer[..];
    }

    /** `read` stores every piece at the front of its buffer. It waits on an empty pipe: `None` says
        that it still waits when the pipe has nothing more. The string ends at the first NUL; past
        a buffer without one the source would read on. */
    method Read() returns (r: Option<string>)
      modifies this
      ensures |old(bytes)| >= BUFFER_SIZE ==>
        r == Some(UpToNul(old(bytes)[..BUFFER_SIZE])) && bytes == old(bytes)[BUFFER_SIZE..]
      ensures |old(bytes)| < BUFFER_SIZE ==> r == None && bytes == []
    {
      var buffer := new char[BUFFER_SIZE];
      var bytesLeft := BUFFER_SIZE;
      while bytesLeft > 0
        invariant 0 <= bytesLeft <= BUFFER_SIZE
        invariant bytesLeft == BUFFER_SIZE ==> bytes == old(bytes)
        invariant 0 < bytesLeft < BUFFER_SIZE ==> bytes == [] && |old(bytes)| < BUFFER_SIZE
        invariant bytesLeft == 0 ==> |old(bytes)| >= BUFFER_SIZE
        invariant bytesLeft == 0 ==> bytes == old(bytes)[BUFFER_SIZE..] && buffer[..] == old(bytes)[..BUFFER_SIZE]
      {
        if bytes == [] {
          return None;
        }
        var numberOfBytes := Min(bytesLeft, |bytes|);
        forall i | 0 <= i < numberOfBytes {
          buffer[i] := bytes[i];
        }
        bytes := bytes[numberOfBytes..];
        bytesLeft := bytesLeft - numberOfBytes;
      }
      r := Some(UpToNul(buffer[..]));
    }
  }

  // ----- reads that return less than they ask for -----

  predicate Pieces(sizes: seq<nat>, total: nat) {
    if sizes == [] then total == 0 else 0 < sizes[0] <= total && Pieces(sizes[1..], total - sizes[0])
  }

  /** The buffer after the loop of `read`, when the reads return pieces of these sizes. */
  function ReadLoop(buffer: string, stream: string, sizes: seq<nat>): string
    requires |buffer| >= |stream| && Pieces(sizes, |stream|)
    decreases |sizes|
  {
    if sizes == [] then buffer
    else ReadLoop(stream[..sizes[0]] + buffer[sizes[0]..], stream[sizes[0]..], sizes[1..])
  }

  /** The first byte of the buffer is the first byte of the last piece. */
  lemma {:induction false} ReadLoopFirst(buffer: string, stream: string, sizes: seq<nat>) returns (offset: nat)
    requires sizes != [] && |buffer| >= |stream| && Pieces(sizes, |stream|)
    ensures offset < |stream| && (offset == 0 <==> |sizes| == 1)
    ensures |ReadLoop(buffer, stream, sizes)| == |buffer| && ReadLoop(buffer, stream, sizes)[0] == stream[offset]
    decreases |sizes|
  {
    var first := sizes[0];
    var next := stream[..first] + buffer[first..];
    if |sizes| == 1 {
      offset := 0;
      assert sizes[1..] == [];
    } else {
      var rest := ReadLoopFirst(next, stream[first..], sizes[1..]);
      offset := first + rest;
    }
  }

  lemma OnePieceReads(sizes: seq<nat>, buffer: string, data: string)
    requires Pieces(sizes, BUFFER_SIZE) && |buffer| == BUFFER_SIZE && |sizes| == 1
    ensures UpToNul(ReadLoop(buffer, RecordOf(data), sizes)) == Cut(data)
  {
    var r := RecordOf(data);
    assert sizes[1..] == [];
    assert r[..BUFFER_SIZE] + buffer[BUFFER_SIZE..] == r;
    RecordCut(data);
  }

  lemma MorePiecesLose(sizes: seq<nat>, buffer: string)
    requires Pieces(sizes, BUFFER_SIZE) && |buffer| == BUFFER_SIZE && |sizes| != 1
    ensures UpToNul(ReadLoop(buffer, RecordOf("A"), sizes)) != Cut("A")
  {
    hide ReadLoop;
    var offset := ReadLoopFirst(buffer, RecordOf("A"), sizes);
    assert RecordOf("A")[offset] == NUL;
    CutKeeps("A");
  }

  /** `read` returns every written string, as cut by `write`, exactly when the first `read()` call
      returns the whole record. */
  lemma ShortReads(sizes: seq<nat>, buffer: string)
    requires Pieces(sizes, BUFFER_SIZE) && |buffer| == BUFFER_SIZE
    ensures (forall data :: UpToNul(ReadLoop(buffer, RecordOf(data), sizes)) == Cut(data)) <==> |sizes| == 1
  {
    hide ReadLoop, RecordOf, Cut, UpToNul;
    if |sizes| == 1 {
      forall data ensures UpToNul(ReadLoop(buffer, RecordOf(data), sizes)) == Cut(data) {
        OnePieceReads(sizes, buffer, data);
      }
    } else {
      MorePiecesLose(sizes, buffer);
    }
  }
}
