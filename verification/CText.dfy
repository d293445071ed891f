/** The pieces of the C and C++ string libraries that the rest of the model needs.
    A C++ `char` is a Dafny `char`; a `std::string` or a byte buffer is a `string`. */
module CText {

  /** `None` also stands for an exception; `:-` passes it on. */
  datatype Option<+T> = None | Some(value: T) {
    predicate IsFailure() {
      None?
    }

    function PropagateFailure<U>(): Option<U>
      requires None?
    {
      None
    }

    function Extract(): T
      requires Some?
    {
      value
    }
  }

  const NUL: char := '\0'

  function Repeat(c: char, n: nat): string {
    seq(n, _ => c)
  }

  /** The C string that starts at the first byte of `s`, when `s` is followed by a NUL. */
  function UpToNul(s: string): (r: string)
    ensures r <= s
    ensures NUL !in r
    ensures |r| < |s| ==> s[|r|] == NUL
  {
    if s == [] || s[0] == NUL then [] else [s[0]] + UpToNul(s[1..])
  }

  lemma UpToNulUnique(s: string, r: string)
    requires r <= s && NUL !in r
    requires |r| < |s| ==> s[|r|] == NUL
    ensures UpToNul(s) == r
  {
    var u := UpToNul(s);
    assert forall k :: 0 <= k < |u| ==> u[k] == s[k] && u[k] != NUL;
    assert forall k :: 0 <= k < |r| ==> r[k] == s[k] && r[k] != NUL;
  }

  /** What `strncpy(dst, s.c_str(), s.length())` leaves in the first `s.length()` bytes of
      `dst` (ISO C11, section 7.24.2.4): the bytes before the first NUL, then NULs. */
  function Strncpy(s: string): (r: string)
    ensures |r| == |s|
  {
    UpToNul(s) + Repeat(NUL, |s| - |UpToNul(s)|)
  }

  lemma StrncpyAt(s: string)
    ensures forall i :: 0 <= i < |s| ==> Strncpy(s)[i] == if NUL in s[..i] then NUL else s[i]
  {
    var u := UpToNul(s);
    forall i | 0 <= i < |s| ensures Strncpy(s)[i] == if NUL in s[..i] then NUL else s[i] {
      if i <= |u| {
        assert s[..i] == u[..i];
      } else {
        assert s[..i][|u|] == NUL;
      }
    }
  }

  /** `strncpy` copies a `std::string` exactly when nothing but NULs follows its first NUL. */
  lemma StrncpyExact(s: string)
    ensures Strncpy(s) == s <==> forall i, j :: 0 <= i < j < |s| && s[i] == NUL ==> s[j] == NUL
    ensures forall i :: 0 <= i < |s| ==> Strncpy(s)[i] == if NUL in s[..i] then NUL else s[i]
  {
    StrncpyAt(s);
    var u := UpToNul(s);
    assert forall k :: 0 <= k < |u| ==> u[k] == s[k] && u[k] != NUL;
    if Strncpy(s) == s {
      forall i, j | 0 <= i < j < |s| && s[i] == NUL ensures s[j] == NUL {
        assert Strncpy(s)[j] == NUL;
      }
    }
  }

  // ----- decimal numbers -----

  predicate IsDigit(c: char) {
    '0' <= c <= '9'
  }

  function DigitValue(c: char): nat
    requires IsDigit(c)
  {
    c as int - '0' as int
  }

  function DigitChar(d: nat): (c: char)
    requires d < 10
    ensures IsDigit(c) && DigitValue(c) == d
  {
    ('0' as int + d) as char
  }

  predicate AllDigits(s: string) {
    forall c <- s :: IsDigit(c)
  }

  /** Decimal printing, as `%d` and `lexical_cast<std::string>` do for a natural number. */
  function Print(n: nat): (r: string)
    ensures |r| > 0 && AllDigits(r)
  {
    if n < 10 then [DigitChar(n)] else Print(n / 10) + [DigitChar(n % 10)]
  }

  /** Reads the leading digits of `s` after a prefix worth `acc`. */
  function ReadDigits(s: string, acc: nat): nat {
    if s == [] || !IsDigit(s[0]) then acc else ReadDigits(s[1..], acc * 10 + DigitValue(s[0]))
  }

  lemma {:induction false} ReadDigitsAppend(s: string, d: char, acc: nat)
    requires AllDigits(s) && IsDigit(d)
    ensures ReadDigits(s + [d], acc) == ReadDigits(s, acc) * 10 + DigitValue(d)
  {
    if s == [] {
      assert (s + [d])[1..] == [];
    } else {
      assert (s + [d])[1..] == s[1..] + [d];
      ReadDigitsAppend(s[1..], d, acc * 10 + DigitValue(s[0]));
    }
  }

  lemma {:induction false} ReadInvertsPrint(n: nat)
    ensures ReadDigits(Print(n), 0) == n
  {
    if n >= 10 {
      ReadInvertsPrint(n / 10);
      ReadDigitsAppend(Print(n / 10), DigitChar(n % 10), 0);
    } else {
      assert Print(n)[1..] == [];
    }
  }

  lemma PrintInjective(m: nat, n: nat)
    requires Print(m) == Print(n)
    ensures m == n
  {
    ReadInvertsPrint(m);
    ReadInvertsPrint(n);
  }

  /** The digits of a number are those of its tens, then its ones. */
  lemma PrintIsDecimal(tens: nat, ones: nat)
    requires ones < 10
    ensures Print(10 * tens + ones) == (if tens == 0 then "" else Print(tens)) + ["0123456789"[ones]]
  {
    assert DigitChar(ones) == "0123456789"[ones];
  }

  function Pow10(k: nat): nat {
    if k == 0 then 1 else 10 * Pow10(k - 1)
  }

  lemma {:induction false} PrintLength(n: nat, k: nat)
    requires k > 0 && n < Pow10(k)
    ensures |Print(n)| <= k
  {
    if n >= 10 {
      assert Pow10(k) == 10 * Pow10(k - 1);
      PrintLength(n / 10, k - 1);
    }
  }

  lemma {:induction false} ReadDigitsBound(s: string, acc: nat)
    ensures ReadDigits(s, acc) < (acc + 1) * Pow10(|s|)
  {
    if s != [] && IsDigit(s[0]) {
      var acc1, p := acc * 10 + DigitValue(s[0]), Pow10(|s| - 1);
      ReadDigitsBound(s[1..], acc1);
      MulMono(acc1 + 1, (acc + 1) * 10, p);
      MulAssoc(acc + 1, 10, p);
    } else {
      Pow10Positive(|s|);
      MulMono(1, Pow10(|s|), acc + 1);
    }
  }

  lemma Pow10Positive(k: nat)
    ensures Pow10(k) >= 1
  {
  }

  lemma MulMono(a: nat, b: nat, c: nat)
    requires a <= b
    ensures a * c <= b * c
  {
  }

  lemma MulAssoc(a: nat, b: nat, c: nat)
    ensures a * b * c == a * (b * c)
  {
  }

  // ----- atoi -----

  predicate IsSpace(c: char) {
    c == ' ' || '\t' <= c <= '\r'
  }

  function SkipSpaces(s: string): string {
    if s != [] && IsSpace(s[0]) then SkipSpaces(s[1..]) else s
  }

  /** `atoi` on a C string (ISO C11, sections 7.22.1.2 and 7.22.1.4): spaces, a sign, digits. */
  function Atoi(s: string): int {
    var t := SkipSpaces(s);
    if t != [] && t[0] == '-' then -(ReadDigits(t[1..], 0) as int)
    else if t != [] && t[0] == '+' then ReadDigits(t[1..], 0)
    else ReadDigits(t, 0)
  }

  lemma {:induction false} SkipSpacesPadding(k: nat, s: string)
    requires s != [] && !IsSpace(s[0])
    ensures SkipSpaces(Repeat(' ', k) + s) == s
  {
    if k == 0 {
      assert Repeat(' ', k) + s == s;
    } else {
      assert (Repeat(' ', k) + s)[1..] == Repeat(' ', k - 1) + s;
      SkipSpacesPadding(k - 1, s);
    }
  }

  /** Skipping spaces and reading digits inverts right-aligned decimal printing, at any width. */
  lemma AtoiInvertsPadding(n: nat, k: nat)
    ensures Atoi(Repeat(' ', k) + Print(n)) == n
  {
    assert IsDigit(Print(n)[0]);
    SkipSpacesPadding(k, Print(n));
    ReadInvertsPrint(n);
  }

  lemma {:induction false} ReadDigitsStops(s: string, rest: string, acc: nat)
    requires AllDigits(s) && (rest == [] || !IsDigit(rest[0]))
    ensures ReadDigits(s + rest, acc) == ReadDigits(s, acc)
  {
    if s == [] {
      assert s + rest == rest;
    } else {
      assert (s + rest)[1..] == s[1..] + rest;
      ReadDigitsStops(s[1..], rest, acc * 10 + DigitValue(s[0]));
    }
  }

  predicate WhiteSpace(s: string) {
    forall c <- s :: c == ' ' || c == '\t' || c == '\n' || c == 11 as char || c == 12 as char || c == '\r'
  }

  lemma {:induction false} SkipWhiteSpace(space: string, s: string)
    requires WhiteSpace(space) && s != [] && !IsSpace(s[0])
    ensures SkipSpaces(space + s) == s
  {
    if space == [] {
      assert space + s == s;
    } else {
      assert space[0] in space && forall c <- space[1..] :: c in space;
      assert (space + s)[1..] == space[1..] + s;
      SkipWhiteSpace(space[1..], s);
    }
  }

  /** `atoi` skips white space, takes a sign, and stops behind the digits. */
  lemma AtoiReads(space: string, n: nat, rest: string)
    requires WhiteSpace(space) && (rest == [] || !IsDigit(rest[0]))
    ensures Atoi(space + (Print(n) + rest)) == n
    ensures Atoi(space + ("+" + Print(n) + rest)) == n
    ensures Atoi(space + ("-" + Print(n) + rest)) == 0 - n
  {
    hide SkipSpaces, Print, ReadDigits;
    ReadInvertsPrint(n);
    ReadDigitsStops(Print(n), rest, 0);
    assert IsDigit(Print(n)[0]);
    SkipWhiteSpace(space, Print(n) + rest);
    SkipWhiteSpace(space, "+" + Print(n) + rest);
    SkipWhiteSpace(space, "-" + Print(n) + rest);
    assert ("+" + Print(n) + rest)[1..] == Print(n) + rest == ("-" + Print(n) + rest)[1..];
  }

  lemma {:induction false} SkipSpacesShrinks(s: string)
    ensures |SkipSpaces(s)| <= |s|
  {
    if s != [] && IsSpace(s[0]) {
      SkipSpacesShrinks(s[1..]);
    }
  }

  lemma {:induction false} Pow10Mono(j: nat, k: nat)
    requires j <= k
    ensures Pow10(j) <= Pow10(k)
  {
    if j < k {
      Pow10Mono(j, k - 1);
      Pow10Positive(k - 1);
    }
  }

  lemma AtoiBound(s: string, k: nat)
    requires |s| <= k
    ensures 0 - Pow10(k) < Atoi(s) < Pow10(k)
  {
    var t := SkipSpaces(s);
    SkipSpacesShrinks(s);
    var u := if t != [] && (t[0] == '-' || t[0] == '+') then t[1..] else t;
    ReadDigitsBound(u, 0);
    Pow10Mono(|u|, k);
  }

  // ----- std::string::find -----

  predicate OccursAt(s: string, pat: string, i: int) {
    0 <= i && i + |pat| <= |s| && s[i..i + |pat|] == pat
  }

  function Find(s: string, pat: string): (r: Option<nat>)
    ensures r.Some? ==> OccursAt(s, pat, r.value) && forall j :: 0 <= j < r.value ==> !OccursAt(s, pat, j)
    ensures r.None? ==> forall j :: !OccursAt(s, pat, j)
  {
    FindFrom(s, pat, 0)
  }

  function FindFrom(s: string, pat: string, i: nat): (r: Option<nat>)
    requires i <= |s| + 1
    ensures r.Some? ==> i <= r.value && OccursAt(s, pat, r.value)
                        && forall j :: i <= j < r.value ==> !OccursAt(s, pat, j)
    ensures r.None? ==> forall j :: i <= j ==> !OccursAt(s, pat, j)
    decreases |s| + 1 - i
  {
    if i > |s| then None
    else if OccursAt(s, pat, i) then Some(i)
    else FindFrom(s, pat, i + 1)
  }

  lemma OccursStart(s: string, pat: string, i: int)
    ensures OccursAt(s, pat, i) && pat != [] ==> s[i] == pat[0]
  {
    if OccursAt(s, pat, i) && pat != [] {
      assert s[i..i + |pat|][0] == s[i];
    }
  }

  lemma OccursChar(s: string, pat: string, i: int, k: nat)
    ensures OccursAt(s, pat, i) && k < |pat| ==> pat[k] in s
  {
    if OccursAt(s, pat, i) && k < |pat| {
      assert s[i..i + |pat|][k] == s[i + k];
    }
  }

  lemma Assoc(a: string, b: string, c: string)
    ensures a + b + c == a + (b + c)
  {
  }

  lemma FindIs(s: string, pat: string, i: nat)
    requires OccursAt(s, pat, i)
    requires forall j :: 0 <= j < i ==> !OccursAt(s, pat, j)
    ensures Find(s, pat) == Some(i)
  {
  }

  // ----- writing into the middle of a buffer -----

  /** The buffer `s` after `bytes` have been stored from index `from` on. */
  function Splice(s: string, from: nat, bytes: string): (r: string)
    requires from + |bytes| <= |s|
    ensures |r| == |s|
  {
    s[..from] + bytes + s[from + |bytes|..]
  }

  lemma IsSplice(r: string, s: string, from: nat, bytes: string)
    requires from + |bytes| <= |s| == |r|
    requires forall i :: 0 <= i < |bytes| ==> r[from + i] == bytes[i]
    requires forall i :: 0 <= i < |s| && !(from <= i < from + |bytes|) ==> r[i] == s[i]
    ensures r == Splice(s, from, bytes)
  {
    forall i | 0 <= i < |s| ensures r[i] == Splice(s, from, bytes)[i] {
      if from <= i < from + |bytes| {
        assert r[from + (i - from)] == bytes[i - from];
      }
    }
  }

  /** Storing right behind a front part extends it. */
  lemma SpliceExtends(s: string, from: nat, bytes: string, left: string)
    requires from + |bytes| <= |s| == |left| && s == s[..from] + left[from..]
    ensures Splice(s, from, bytes)[..from + |bytes|] == s[..from] + bytes
    ensures Splice(s, from, bytes) == (s[..from] + bytes) + left[from + |bytes|..]
  {
    assert s[from + |bytes|..] == left[from + |bytes|..] by {
      assert forall i :: from <= i < |s| ==> s[i] == left[from..][i - from] == left[i];
    }
  }

  // ----- concatenation of a list of strings -----

  function Concat(parts: seq<string>): string {
    if parts == [] then [] else parts[0] + Concat(parts[1..])
  }

  lemma {:induction false} ConcatAppend(a: seq<string>, b: seq<string>)
    ensures Concat(a + b) == Concat(a) + Concat(b)
  {
    if a == [] {
      assert a + b == b;
    } else {
      assert (a + b)[1..] == a[1..] + b;
      ConcatAppend(a[1..], b);
    }
  }

  lemma ConcatSnoc(a: seq<string>, s: string)
    ensures Concat(a + [s]) == Concat(a) + s
  {
    ConcatAppend(a, [s]);
    assert Concat([s]) == s;
  }
}
