/** The wire format of `Transport::Message`: a 5-byte right-aligned decimal length, then the body. */
module Framing {
  import opened CText

  const HEADER_SIZE: nat := 5
  const MAX_BODY_SIZE: nat := 99999
  const BUFFER_SIZE: nat := 100004
  const HEARTBEAT: string := "PING"

  /** The bytes of a message's fixed array. */
  type Buffer = s: string | |s| == BUFFER_SIZE witness Repeat(NUL, BUFFER_SIZE)

  /** `sprintf("%5d")`. */
  function EncodeHeader(n: nat): string {
    var digits := Print(n);
    Repeat(' ', if |digits| < HEADER_SIZE then HEADER_SIZE - |digits| else 0) + digits
  }

  /** `atoi` on the header, which `strncat` cuts at its first NUL. */
  function HeaderValue(header: string): (r: int)
    requires |header| == HEADER_SIZE
    ensures -100000 < r < 100000
  {
    AtoiBound(UpToNul(header), 5);
    assert Pow10(5) == 100000;
    Atoi(UpToNul(header))
  }

  /** The body length that `decodeHeader` stores and the flag it returns. The `atoi` value
      becomes a 32-bit `unsigned int` before it is compared with the limit. */
  function DecodeHeader(header: string): (nat, bool)
    requires |header| == HEADER_SIZE
  {
    var value := HeaderValue(header);
    var length: nat := if value < 0 then value + 0x1_0000_0000 else value;
    if length > MAX_BODY_SIZE then (0, false) else (length, true)
  }

  /** Any five bytes give a length that the body read can store, and are rejected exactly
      when their `atoi` value is negative. */
  lemma DecodeHeaderTotal(header: string)
    requires |header| == HEADER_SIZE
    ensures var (length, ok) := DecodeHeader(header);
            && HEADER_SIZE + length <= BUFFER_SIZE
            && (ok <==> Atoi(UpToNul(header)) >= 0)
            && length == if ok then Atoi(UpToNul(header)) else 0
  {
  }

  lemma EncodeHeaderFits(n: nat)
    requires n <= MAX_BODY_SIZE
    ensures |EncodeHeader(n)| == HEADER_SIZE && NUL !in EncodeHeader(n)
  {
    assert Pow10(5) == 100000;
    PrintLength(n, 5);
    assert NUL !in Print(n);
  }

  lemma HeaderRoundTrip(n: nat)
    requires n <= MAX_BODY_SIZE
    ensures |EncodeHeader(n)| == HEADER_SIZE
    ensures DecodeHeader(EncodeHeader(n)) == (n, true)
  {
    EncodeHeaderFits(n);
    UpToNulUnique(EncodeHeader(n), EncodeHeader(n));
    AtoiInvertsPadding(n, HEADER_SIZE - |Print(n)|);
  }

  // ----- frames -----

  /** A byte string whose header announces exactly the body that follows. */
  predicate Framed(f: string) {
    |f| >= HEADER_SIZE && DecodeHeader(f[..HEADER_SIZE]) == (|f| - HEADER_SIZE, true)
  }

  predicate AllFramed(fs: seq<string>) {
    forall f <- fs :: Framed(f)
  }

  function BodyOf(f: string): string {
    if |f| >= HEADER_SIZE then f[HEADER_SIZE..] else []
  }

  function Bodies(fs: seq<string>): (r: seq<string>)
    ensures |r| == |fs| && forall i :: 0 <= i < |fs| ==> r[i] == BodyOf(fs[i])
  {
    seq(|fs|, i requires 0 <= i < |fs| => BodyOf(fs[i]))
  }

  /** The frame that `setData(body)` makes. */
  function DataFrame(body: string): string {
    EncodeHeader(|body|) + Strncpy(body)
  }

  lemma DataFrameFramed(body: string)
    requires |body| <= MAX_BODY_SIZE
    ensures Framed(DataFrame(body)) && BodyOf(DataFrame(body)) == Strncpy(body)
  {
    HeaderRoundTrip(|body|);
    assert DataFrame(body)[..HEADER_SIZE] == EncodeHeader(|body|);
  }

  // ----- the one-shot parser of a byte stream -----

  /** The complete frames of a stream; whether a header was rejected; the bytes after the last
      complete frame. */
  datatype Parsed = Parsed(frames: seq<string>, rejected: bool, rest: string)

  function Parse(s: string): Parsed
    decreases |s|
  {
    if |s| < HEADER_SIZE then Parsed([], false, s)
    else
      var (length, ok) := DecodeHeader(s[..HEADER_SIZE]);
      if !ok then Parsed([], true, s)
      else if |s| < HEADER_SIZE + length then Parsed([], false, s)
      else
        var more := Parse(s[HEADER_SIZE + length..]);
        Parsed([s[..HEADER_SIZE + length]] + more.frames, more.rejected, more.rest)
  }

  /** The parser splits the stream and loses nothing. */
  lemma {:induction false} ParsePartitions(s: string)
    ensures AllFramed(Parse(s).frames)
    ensures Concat(Parse(s).frames) + Parse(s).rest == s
    decreases |s|
  {
    hide Parse, Framed;
    if Parse(s).frames == [] {
      NoFrame(s);
    } else {
      var first, later := SplitFirst(s);
      ParsePartitions(later);
      var fs := Parse(later).frames;
      assert Concat([first] + fs) == first + Concat(fs) by {
        assert ([first] + fs)[1..] == fs;
      }
    }
  }

  lemma NoFrame(s: string)
    requires Parse(s).frames == []
    ensures Parse(s).rest == s
  {
  }

  lemma SplitFirst(s: string) returns (first: string, later: string)
    requires Parse(s).frames != []
    ensures Framed(first) && s == first + later
    ensures Parse(s) == Parsed([first] + Parse(later).frames, Parse(later).rejected, Parse(later).rest)
    ensures |later| < |s|
  {
    var (length, ok) := DecodeHeader(s[..HEADER_SIZE]);
    first, later := s[..HEADER_SIZE + length], s[HEADER_SIZE + length..];
    assert first[..HEADER_SIZE] == s[..HEADER_SIZE];
  }

  lemma ParseFirst(f: string, later: string)
    requires Framed(f)
    ensures Parse(f + later) == Parsed([f] + Parse(later).frames, Parse(later).rejected, Parse(later).rest)
  {
    var s := f + later;
    assert s[..HEADER_SIZE] == f[..HEADER_SIZE];
    assert s[..|f|] == f && s[|f|..] == later;
  }

  /** Frames in front of a stream come out first and unchanged. */
  lemma {:induction false} ParseFrames(fs: seq<string>, rest: string)
    requires AllFramed(fs)
    ensures Parse(Concat(fs) + rest) == Parsed(fs + Parse(rest).frames, Parse(rest).rejected, Parse(rest).rest)
  {
    hide Parse, DecodeHeader;
    var tail := Parse(rest).frames;
    if fs == [] {
      assert Concat(fs) + rest == rest;
      assert fs + tail == tail;
    } else {
      assert Framed(fs[0]);
      ParseFrames(fs[1..], rest);
      ParseFirst(fs[0], Concat(fs[1..]) + rest);
      assert fs[0] + (Concat(fs[1..]) + rest) == Concat(fs) + rest;
      assert [fs[0]] + (fs[1..] + tail) == fs + tail;
    }
  }

  function DataFrames(bodies: seq<string>): (r: seq<string>)
    ensures |r| == |bodies| && forall i :: 0 <= i < |r| ==> r[i] == DataFrame(bodies[i])
  {
    seq(|bodies|, i requires 0 <= i < |bodies| => DataFrame(bodies[i]))
  }

  /** Framing round trip: the frames of any bodies of at most 99999 bytes parse back, with
      nothing left over, to the images that `strncpy` makes of them. */
  lemma FramingRoundTrip(bodies: seq<string>)
    requires forall b <- bodies :: |b| <= MAX_BODY_SIZE
    ensures Parse(Concat(DataFrames(bodies))) == Parsed(DataFrames(bodies), false, [])
    ensures forall i :: 0 <= i < |bodies| ==> BodyOf(Parse(Concat(DataFrames(bodies))).frames[i]) == Strncpy(bodies[i])
  {
    forall i | 0 <= i < |bodies|
      ensures Framed(DataFrames(bodies)[i]) && BodyOf(DataFrames(bodies)[i]) == Strncpy(bodies[i])
    {
      DataFrameFramed(bodies[i]);
    }
    ParseFrames(DataFrames(bodies), []);
    assert Concat(DataFrames(bodies)) + [] == Concat(DataFrames(bodies));
  }

  /** The bodies themselves come back exactly when `strncpy` keeps each of them. */
  lemma BodiesRoundTrip(bodies: seq<string>)
    requires forall b <- bodies :: |b| <= MAX_BODY_SIZE
    ensures Bodies(Parse(Concat(DataFrames(bodies))).frames) == bodies
            <==> forall b <- bodies :: forall i, j :: 0 <= i < j < |b| && b[i] == NUL ==> b[j] == NUL
  {
    hide Parse, Concat, DataFrame, Strncpy, BodyOf;
    FramingRoundTrip(bodies);
    var back := Bodies(Parse(Concat(DataFrames(bodies))).frames);
    forall i | 0 <= i < |bodies|
      ensures back[i] == bodies[i]
              <==> forall j, k :: 0 <= j < k < |bodies[i]| && bodies[i][j] == NUL ==> bodies[i][k] == NUL
    {
      StrncpyExact(bodies[i]);
    }
    if back == bodies {
      forall b | b in bodies ensures forall i, j :: 0 <= i < j < |b| && b[i] == NUL ==> b[j] == NUL {
        var k :| 0 <= k < |bodies| && bodies[k] == b;
        assert back[k] == bodies[k];
      }
    } else {
      var k :| 0 <= k < |bodies| && back[k] != bodies[k];
      assert bodies[k] in bodies;
    }
  }

  /** If a list of frames starts the bytes of another list, it starts that list. */
  lemma {:induction false} PrefixDecodes(a: seq<string>, b: seq<string>)
    requires AllFramed(a) && AllFramed(b)
    requires Concat(a) <= Concat(b)
    ensures a <= b
  {
    if a != [] {
      assert Framed(a[0]);
      assert |Concat(a)| >= |a[0]|;
      assert Framed(b[0]);
      var s := Concat(b);
      assert s[..HEADER_SIZE] == a[0][..HEADER_SIZE] == b[0][..HEADER_SIZE];
      assert s[..|a[0]|] == a[0];
      assert s[|a[0]|..] == Concat(b[1..]);
      assert Concat(a)[|a[0]|..] == Concat(a[1..]);
      PrefixDecodes(a[1..], b[1..]);
      assert a == [a[0]] + a[1..] && b == [b[0]] + b[1..];
    }
  }

  /** The encoding is uniquely decodable. */
  lemma UniquelyDecodable(a: seq<string>, b: seq<string>)
    requires AllFramed(a) && AllFramed(b)
    requires Concat(a) == Concat(b)
    ensures a == b
  {
    PrefixDecodes(a, b);
    PrefixDecodes(b, a);
  }

  // ----- heartbeats -----

  /** What the array holds once a frame has been read over `left`. */
  function Overlay(f: string, left: Buffer): (r: Buffer)
    requires |f| <= BUFFER_SIZE
  {
    f + left[|f|..]
  }

  /** `isHeartbeat` compares four bytes of the array, whatever the body length. */
  predicate IsHeartbeat(data: Buffer) {
    data[HEADER_SIZE..HEADER_SIZE + |HEARTBEAT|] == HEARTBEAT
  }

  predicate IsPing(f: string) {
    HEARTBEAT <= BodyOf(f)
  }

  /** A body that is a proper prefix of "PING": the answer of `isHeartbeat` then depends on
      what the array held before. */
  predicate Ambiguous(f: string) {
    BodyOf(f) < HEARTBEAT
  }

  lemma ClassifyFrame(f: string, left: Buffer)
    requires Framed(f) && |f| <= BUFFER_SIZE && !Ambiguous(f)
    ensures IsHeartbeat(Overlay(f, left)) <==> IsPing(f)
  {
    var b := BodyOf(f);
    var four := Overlay(f, left)[5..9];
    if |b| >= 4 {
      assert four == b[..4];
    } else {
      assert forall i :: 0 <= i < |b| ==> four[i] == f[5 + i] == b[i];
      assert four[..|b|] == b;
    }
  }

  /** `isHeartbeat` is a function of the frame exactly when the body is not a proper prefix
      of "PING". */
  lemma ClassificationIgnoresLeftovers(f: string)
    requires Framed(f) && |f| <= BUFFER_SIZE
    ensures (forall l1: Buffer, l2: Buffer :: IsHeartbeat(Overlay(f, l1)) == IsHeartbeat(Overlay(f, l2)))
            <==> !Ambiguous(f)
  {
    if Ambiguous(f) {
      var b := BodyOf(f);
      var ping: Buffer := Repeat(' ', 5) + HEARTBEAT + Repeat(' ', BUFFER_SIZE - 9);
      var none: Buffer := Repeat(' ', BUFFER_SIZE);
      assert Overlay(f, ping)[5..9] == HEARTBEAT;
      assert Overlay(f, none)[8] == ' ';
      assert Overlay(f, none)[5..9][3] == ' ';
      assert IsHeartbeat(Overlay(f, ping)) != IsHeartbeat(Overlay(f, none));
    } else {
      forall l1: Buffer, l2: Buffer ensures IsHeartbeat(Overlay(f, l1)) == IsHeartbeat(Overlay(f, l2)) {
        ClassifyFrame(f, l1);
        ClassifyFrame(f, l2);
      }
    }
  }

  function Pings(fs: seq<string>): nat {
    if fs == [] then 0 else (if IsPing(fs[0]) then 1 else 0) + Pings(fs[1..])
  }

  lemma {:induction false} PingsAppend(a: seq<string>, b: seq<string>)
    ensures Pings(a + b) == Pings(a) + Pings(b)
  {
    if a == [] {
      assert a + b == b;
    } else {
      assert (a + b)[1..] == a[1..] + b;
      PingsAppend(a[1..], b);
    }
  }
}
