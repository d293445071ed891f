/** When the five sequential replacements of `formatMessage` are one simultaneous substitution. */
module Substitution {
  import opened CText
  import opened Formatter

  /** The step that replaces a name; 5 for any other text. */
  function Rank(name: string): nat {
    if name == "Severity" then 0
    else if name == "Time" then 1
    else if name == "ProcessId" then 2
    else if name == "ThreadId" then 3
    else if name == "Text" then 4
    else 5
  }

  lemma RankOfNames()
    ensures forall p :: 0 <= p < 5 ==> Rank(NAMES[p]) == p && Plain(NAMES[p])
    ensures forall s :: Rank(s) < 5 ==> s == NAMES[Rank(s)]
  {
  }

  /** The text occurs in no placeholder name; in particular it is not empty. */
  ghost predicate NotInNames(v: string) {
    forall p, i :: 0 <= p < 5 ==> !OccursAt(NAMES[p], v, i)
  }

  /** The value of a placeholder. */
  function ValueOf(name: string, values: seq<string>): string
    requires |values| == 5
  {
    if Rank(name) < 5 then values[Rank(name)] else []
  }

  /** The simultaneous substitution: the segments at odd positions are placeholder names. */
  function Substitute(segments: seq<string>, values: seq<string>): string
    requires |segments| % 2 == 1 && |values| == 5
  {
    if |segments| == 1 then segments[0]
    else segments[0] + ValueOf(segments[1], values) + Substitute(segments[2..], values)
  }

  predicate OddAt(segments: seq<string>, i: int) {
    0 <= i < |segments| && i % 2 == 1
  }

  /** Each placeholder from the k-th on occurs once, at an odd position, and no other does. */
  ghost predicate Template(segments: seq<string>, k: nat) {
    && k <= 5 && |segments| == 2 * (5 - k) + 1
    && (forall i :: OddAt(segments, i) ==> k <= Rank(segments[i]) < 5)
    && (forall i, j :: OddAt(segments, i) && OddAt(segments, j) && i != j ==> Rank(segments[i]) != Rank(segments[j]))
    && (forall p :: k <= p < 5 ==> HasPlaceholder(segments, p))
  }

  ghost predicate HasPlaceholder(segments: seq<string>, p: int) {
    exists i :: OddAt(segments, i) && Rank(segments[i]) == p
  }

  /** No placeholder before `j` has the name that stands at `j`. */
  ghost predicate First(segments: seq<string>, j: int)
    requires 0 <= j < |segments|
  {
    forall i :: OddAt(segments, i) && i < j ==> Rank(segments[i]) != Rank(segments[j])
  }

  /** The literal at the even position `j` spells a placeholder that is still to come, and the
      placeholders around it are still there when it is looked for. */
  ghost predicate Confusing(segments: seq<string>, k: nat, j: int) {
    && 2 <= j <= |segments| - 3 && j % 2 == 0
    && k <= Rank(segments[j]) < 5
    && Rank(segments[j - 1]) > Rank(segments[j]) && Rank(segments[j + 1]) >= Rank(segments[j])
    && First(segments, j)
  }

  ghost predicate Clean(segments: seq<string>, k: nat) {
    forall j :: !Confusing(segments, k, j)
  }

  // ----- one step -----

  /** The segments after the one at `i` has been replaced. */
  function Merge(segments: seq<string>, i: nat, v: string): (r: seq<string>)
    requires 1 <= i <= |segments| - 2
    ensures |r| == |segments| - 2
    ensures forall j :: 0 <= j < i - 1 ==> r[j] == segments[j]
    ensures r[i - 1] == segments[i - 1] + v + segments[i + 1]
    ensures forall j :: i <= j < |r| ==> r[j] == segments[j + 2]
  {
    segments[..i - 1] + [segments[i - 1] + v + segments[i + 1]] + segments[i + 2..]
  }

  lemma JoinSnoc(init: seq<string>, last: string)
    requires init != []
    ensures Join(init + [last]) == Join(init) + "%" + last
  {
    JoinAppend(init, [last]);
  }

  lemma JoinGlue(a: seq<string>, v: string, b: seq<string>)
    requires a != [] && b != []
    ensures Join(a) + v + Join(b) == Join(a[..|a| - 1] + ([a[|a| - 1] + v + b[0]] + b[1..]))
  {
    hide Join;
    var init, last := a[..|a| - 1], a[|a| - 1];
    assert a == init + [last];
    GlueRight(last + v, b);
    if init == [] {
      assert a == [last];
      JoinOne(last);
      assert init + ([last + v + b[0]] + b[1..]) == [last + v + b[0]] + b[1..];
    } else {
      GlueLeft(init, last, v, Join(b), [last + v + b[0]] + b[1..]);
    }
  }

  lemma GlueLeft(init: seq<string>, last: string, v: string, right: string, tail: seq<string>)
    requires init != [] && tail != [] && Join(tail) == last + v + right
    ensures Join(init + [last]) + v + right == Join(init + tail)
  {
    hide Join;
    var front := Join(init) + "%";
    JoinSnoc(init, last);
    JoinAppend(init, tail);
    Assoc(front, last, v);
    Assoc(front, last + v, right);
  }

  lemma JoinOne(s: string)
    ensures Join([s]) == s
  {
  }

  lemma GlueRight(x: string, b: seq<string>)
    requires b != []
    ensures x + Join(b) == Join([x + b[0]] + b[1..])
  {
    if |b| > 1 {
      assert ([x + b[0]] + b[1..])[1..] == b[1..];
      Assoc(x, b[0] + "%", Join(b[1..]));
      Assoc(x, b[0], "%");
    } else {
      assert [x + b[0]] + b[1..] == [x + b[0]];
    }
  }

  /** A step on the text is a merge of segments. */
  lemma ReplaceIsMerge(segments: seq<string>, name: string, v: string)
    requires segments != [] && AllPlain(segments) && Plain(name)
    ensures Replace(Join(segments), Placeholder(name), v)
         == match Hit(segments, name) case None => None case Some(i) => Some(Join(Merge(segments, i, v)))
  {
    hide Find, Join, Merge;
    FindHit(segments, name);
    if Hit(segments, name).Some? {
      var i := Hit(segments, name).value;
      var a, b := Join(segments[..i]), Join(segments[i + 1..]);
      SplitAt(segments, i);
      var s := Join(segments);
      assert s[..|a|] == a && s[|a| + |Placeholder(name)|..] == b;
      GlueIsMerge(segments, i, v);
    }
  }

  lemma GlueIsMerge(segments: seq<string>, i: nat, v: string)
    requires 1 <= i <= |segments| - 2
    ensures Join(segments[..i]) + v + Join(segments[i + 1..]) == Join(Merge(segments, i, v))
  {
    hide Join;
    var a, b := segments[..i], segments[i + 1..];
    JoinGlue(a, v, b);
    assert a[..|a| - 1] == segments[..i - 1] && b[1..] == segments[i + 2..];
    assert a[..|a| - 1] + ([a[|a| - 1] + v + b[0]] + b[1..]) == Merge(segments, i, v);
  }

  lemma SplitAt(segments: seq<string>, i: nat)
    requires 1 <= i <= |segments| - 2
    ensures Join(segments) == Join(segments[..i]) + Placeholder(segments[i]) + Join(segments[i + 1..])
  {
    hide Join;
    var a, b := segments[..i], segments[i + 1..];
    assert segments == a + ([segments[i]] + b);
    JoinAppend(a, [segments[i]] + b);
    JoinAppend([segments[i]], b);
    JoinOne(segments[i]);
    Assoc(Join(a) + "%", segments[i] + "%", Join(b));
    Assoc(Join(a), "%", segments[i] + "%");
    Assoc("%", segments[i], "%");
  }

  /** A hit, said with ranks. */
  lemma HitRank(segments: seq<string>, k: nat)
    requires k < 5
    ensures match Hit(segments, NAMES[k])
            case None => forall i :: 1 <= i <= |segments| - 2 ==> Rank(segments[i]) != k
            case Some(h) =>
              1 <= h <= |segments| - 2 && Rank(segments[h]) == k && forall i :: 1 <= i < h ==> Rank(segments[i]) != k
  {
    hide Rank;
    RankOfNames();
  }

  lemma {:induction false} SubstituteMerge(segments: seq<string>, i: nat, values: seq<string>)
    requires |segments| % 2 == 1 && |values| == 5 && 1 <= i <= |segments| - 2 && i % 2 == 1
    ensures var merged := Merge(segments, i, ValueOf(segments[i], values));
            Substitute(merged, values) == Substitute(segments, values)
  {
    var v := ValueOf(segments[i], values);
    var merged := Merge(segments, i, v);
    if i == 1 {
      if |segments| > 3 {
        assert merged[2..] == segments[2..][2..] && merged[1] == segments[2..][1];
        var rest := ValueOf(merged[1], values) + Substitute(merged[2..], values);
        assert segments[0] + v + segments[2] + rest == segments[0] + v + (segments[2] + rest);
        assert Substitute(segments[2..], values) == segments[2] + rest;
      }
    } else {
      SubstituteMerge(segments[2..], i - 2, values);
      assert segments[2..][i - 2] == segments[i];
      assert merged[2..] == Merge(segments[2..], i - 2, v);
    }
  }

  /** A merged segment is never a placeholder name. */
  lemma MergedIsNoName(a: string, v: string, b: string)
    requires NotInNames(v)
    ensures Rank(a + v + b) == 5
  {
    var s := a + v + b;
    assert s[|a|..|a| + |v|] == v;
    if Rank(s) < 5 {
      RankOfNames();
      assert OccursAt(NAMES[Rank(s)], v, |a|);
    }
  }

  /** The k-th step replaces the segment at `i`. */
  ghost predicate Hits(segments: seq<string>, k: nat, i: nat) {
    1 <= i <= |segments| - 2 && Rank(segments[i]) == k && forall j :: 1 <= j < i ==> Rank(segments[j]) != k
  }

  /** A template always has its next placeholder. */
  lemma TemplateHits(segments: seq<string>, k: nat)
    requires Template(segments, k) && k < 5
    ensures Hit(segments, NAMES[k]).Some? && Hits(segments, k, Hit(segments, NAMES[k]).value)
  {
    hide Rank, Hit;
    HitRank(segments, k);
    assert HasPlaceholder(segments, k);
    var i :| OddAt(segments, i) && Rank(segments[i]) == k;
    assert 1 <= i <= |segments| - 2;
  }

  /** Where a segment of the merged list comes from. */
  function Origin(i: nat, j: int): int {
    if j < i then j else j + 2
  }

  function Image(i: nat, o: int): int {
    if o < i then o else o - 2
  }

  lemma Origins(segments: seq<string>, i: nat, v: string, j: int)
    requires 1 <= i <= |segments| - 2 && i % 2 == 1 && 0 <= j < |segments| - 2 && j != i - 1
    ensures 0 <= Origin(i, j) < |segments| && Origin(i, j) != i && Origin(i, j) % 2 == j % 2
    ensures Merge(segments, i, v)[j] == segments[Origin(i, j)]
  {
  }

  lemma Images(segments: seq<string>, i: nat, v: string, o: int)
    requires 1 <= i <= |segments| - 2 && i % 2 == 1 && 0 <= o < |segments| && o != i && o != i - 1 && o != i + 1
    ensures 0 <= Image(i, o) < |segments| - 2 && Image(i, o) != i - 1 && Image(i, o) % 2 == o % 2
    ensures Merge(segments, i, v)[Image(i, o)] == segments[o]
  {
  }

  lemma MergedOdd(segments: seq<string>, k: nat, i: nat, v: string, j: int)
    requires Template(segments, k) && k < 5 && Hits(segments, k, i) && i % 2 == 1
    requires OddAt(Merge(segments, i, v), j)
    ensures OddAt(segments, Origin(i, j)) && Merge(segments, i, v)[j] == segments[Origin(i, j)]
    ensures k + 1 <= Rank(Merge(segments, i, v)[j]) < 5
  {
    hide Rank, Merge, HasPlaceholder;
    Origins(segments, i, v, j);
    assert OddAt(segments, i) && OddAt(segments, Origin(i, j));
  }

  lemma MergedPlaceholder(segments: seq<string>, i: nat, v: string, p: int)
    requires 1 <= i <= |segments| - 2 && i % 2 == 1 && Rank(segments[i]) != p
    requires HasPlaceholder(segments, p)
    ensures HasPlaceholder(Merge(segments, i, v), p)
  {
    hide Rank, Merge;
    var o :| OddAt(segments, o) && Rank(segments[o]) == p;
    Images(segments, i, v, o);
    assert OddAt(Merge(segments, i, v), Image(i, o));
  }

  lemma RightStep(segments: seq<string>, k: nat, i: nat, v: string)
    requires Template(segments, k) && k < 5 && Hits(segments, k, i) && i % 2 == 1
    ensures Template(Merge(segments, i, v), k + 1)
  {
    hide Rank, Merge, Origin, HasPlaceholder;
    var merged := Merge(segments, i, v);
    forall j | OddAt(merged, j) ensures k + 1 <= Rank(merged[j]) < 5 {
      MergedOdd(segments, k, i, v, j);
    }
    forall j, l | OddAt(merged, j) && OddAt(merged, l) && j != l ensures Rank(merged[j]) != Rank(merged[l]) {
      MergedOdd(segments, k, i, v, j);
      MergedOdd(segments, k, i, v, l);
      OriginInjective(i, j, l);
    }
    forall p | k + 1 <= p < 5 ensures HasPlaceholder(merged, p) {
      MergedPlaceholder(segments, i, v, p);
    }
  }

  lemma OriginInjective(i: nat, j: int, l: int)
    requires j != l
    ensures Origin(i, j) != Origin(i, l)
  {
  }

  // ----- a wrong step never recovers -----

  /** Some odd position holds no placeholder name: the remaining placeholders cannot all be
      there. */
  ghost predicate Spoilt(segments: seq<string>) {
    exists i :: OddAt(segments, i) && Rank(segments[i]) == 5
  }

  ghost predicate GoodValues(values: seq<string>) {
    |values| == 5 && forall k :: 0 <= k < 4 ==> Plain(values[k]) && NotInNames(values[k])
  }

  lemma MergePlain(segments: seq<string>, i: nat, v: string)
    requires 1 <= i <= |segments| - 2 && AllPlain(segments) && Plain(v)
    ensures AllPlain(Merge(segments, i, v))
  {
    var merged := Merge(segments, i, v);
    forall s | s in merged ensures Plain(s) {
      var j :| 0 <= j < |merged| && merged[j] == s;
      assert segments[i - 1] in segments && segments[i + 1] in segments;
    }
  }

  lemma SpoiltStays(segments: seq<string>, k: nat, j: nat, v: string)
    requires k < 4 && NotInNames(v)
    requires Hits(segments, k, j) && (Spoilt(segments) || j % 2 == 0)
    ensures Spoilt(Merge(segments, j, v))
  {
    hide Rank, NotInNames;
    var merged := Merge(segments, j, v);
    if j % 2 == 0 {
      MergedIsNoName(segments[j - 1], v, segments[j + 1]);
      assert OddAt(merged, j - 1);
    } else {
      var i :| OddAt(segments, i) && Rank(segments[i]) == 5;
      assert i != j;
      assert OddAt(merged, Image(j, i)) && merged[Image(j, i)] == segments[i];
    }
  }

  lemma {:induction false} SpoiltFails(segments: seq<string>, k: nat, values: seq<string>)
    requires k < 5 && |segments| == 2 * (5 - k) + 1 && AllPlain(segments) && Spoilt(segments) && GoodValues(values)
    ensures Steps(Join(segments), values, k) == None
    decreases 5 - k
  {
    hide Rank, NotInNames, Hit, Join, Replace;
    RankOfNames();
    ReplaceIsMerge(segments, NAMES[k], values[k]);
    HitRank(segments, k);
    var hit := Hit(segments, NAMES[k]);
    if k == 4 {
      var i :| OddAt(segments, i) && Rank(segments[i]) == 5;
      assert i == 1;
    } else if hit.Some? {
      SpoiltStays(segments, k, hit.value, values[k]);
      MergePlain(segments, hit.value, values[k]);
      SpoiltFails(Merge(segments, hit.value, values[k]), k + 1, values);
    }
  }

  // ----- cleanness -----

  /** A step that hits a literal shows that the segments were not clean. */
  lemma EvenHitConfuses(segments: seq<string>, k: nat, i: nat)
    requires Template(segments, k) && k < 5 && Hits(segments, k, i) && i % 2 == 0
    ensures !Clean(segments, k) && k < 4
  {
    hide Rank;
    assert OddAt(segments, i - 1) && OddAt(segments, i + 1);
    assert Confusing(segments, k, i);
  }

  lemma FirstOrigin(segments: seq<string>, i: nat, v: string, j: int)
    requires 1 <= i <= |segments| - 2 && i % 2 == 1 && 0 <= j < |segments| - 2 && j != i - 1
    requires Rank(segments[i]) != Rank(segments[Origin(i, j)])
    requires First(Merge(segments, i, v), j)
    ensures First(segments, Origin(i, j))
  {
    hide Rank, Merge;
    Origins(segments, i, v, j);
    forall l | OddAt(segments, l) && l < Origin(i, j) ensures Rank(segments[l]) != Rank(segments[Origin(i, j)]) {
      if l != i {
        Images(segments, i, v, l);
        assert OddAt(Merge(segments, i, v), Image(i, l));
      }
    }
  }

  lemma FirstImage(segments: seq<string>, i: nat, v: string, o: int)
    requires 1 <= i <= |segments| - 2 && i % 2 == 1 && 0 <= o < |segments| && o != i && o != i - 1 && o != i + 1
    requires First(segments, o)
    ensures 0 <= Image(i, o) < |segments| - 2 && First(Merge(segments, i, v), Image(i, o))
  {
    hide Rank, Merge;
    Images(segments, i, v, o);
    var merged := Merge(segments, i, v);
    forall l | OddAt(merged, l) && l < Image(i, o) ensures Rank(merged[l]) != Rank(merged[Image(i, o)]) {
      Origins(segments, i, v, l);
      assert OddAt(segments, Origin(i, l));
    }
  }

  /** A confusion after a right step was there before. */
  lemma LaterConfusion(segments: seq<string>, k: nat, i: nat, v: string, j: int)
    requires Template(segments, k) && k < 5 && Hits(segments, k, i) && i % 2 == 1
    requires k < 4 ==> NotInNames(v)
    requires Confusing(Merge(segments, i, v), k + 1, j)
    ensures !Clean(segments, k)
  {
    hide Rank, NotInNames, Merge, First;
    assert j != i - 1 by {
      if k < 4 {
        MergedIsNoName(segments[i - 1], v, segments[i + 1]);
      }
    }
    Origins(segments, i, v, j - 1);
    Origins(segments, i, v, j);
    Origins(segments, i, v, j + 1);
    FirstOrigin(segments, i, v, j);
    assert Confusing(segments, k, Origin(i, j));
  }

  /** A confusion about another placeholder stays after a right step. */
  lemma EarlierConfusion(segments: seq<string>, k: nat, i: nat, v: string, j: int)
    requires Template(segments, k) && k < 5 && Hits(segments, k, i) && i % 2 == 1
    requires Confusing(segments, k, j)
    ensures !Clean(Merge(segments, i, v), k + 1)
  {
    hide Rank, Merge, Template;
    assert OddAt(segments, i);
    assert Rank(segments[j]) != k;
    assert j - 1 != i && j + 1 != i;
    hide First, OddAt;
    Images(segments, i, v, j - 1);
    Images(segments, i, v, j);
    Images(segments, i, v, j + 1);
    FirstImage(segments, i, v, j);
    assert Confusing(Merge(segments, i, v), k + 1, Image(i, j));
  }

  /** A right step neither removes nor adds confusing literals of later placeholders. */
  lemma CleanStep(segments: seq<string>, k: nat, i: nat, v: string)
    requires Template(segments, k) && k < 5 && Hits(segments, k, i) && i % 2 == 1
    requires k < 4 ==> NotInNames(v)
    ensures Clean(segments, k) <==> Clean(Merge(segments, i, v), k + 1)
  {
    hide Template, Confusing, NotInNames, Merge;
    var merged, next := Merge(segments, i, v), k + 1;
    forall j | Confusing(merged, next, j) ensures !Clean(segments, k) {
      LaterConfusion(segments, k, i, v, j);
    }
    forall j | Confusing(segments, k, j) ensures !Clean(merged, next) {
      EarlierConfusion(segments, k, i, v, j);
    }
  }

  // ----- the theorem -----

  lemma {:induction false} StepsSubstitute(segments: seq<string>, k: nat, values: seq<string>)
    requires Template(segments, k) && GoodValues(values) && (k < 5 ==> AllPlain(segments))
    ensures Steps(Join(segments), values, k)
         == if Clean(segments, k) then Some(Substitute(segments, values)) else None
    decreases 5 - k
  {
    hide NotInNames, Hit, Join, Replace, Merge, Clean, Substitute;
    if k == 5 {
      LastSegment(segments, values);
    } else {
      RankOfNames();
      TemplateHits(segments, k);
      var i := Hit(segments, NAMES[k]).value;
      var v := values[k];
      ReplaceIsMerge(segments, NAMES[k], v);
      if k < 4 {
        MergePlain(segments, i, v);
      }
      if i % 2 == 1 {
        RightStep(segments, k, i, v);
        CleanStep(segments, k, i, v);
        SubstituteMerge(segments, i, values);
        StepsSubstitute(Merge(segments, i, v), k + 1, values);
      } else {
        EvenHitConfuses(segments, k, i);
        SpoiltStays(segments, k, i, v);
        SpoiltFails(Merge(segments, i, v), k + 1, values);
      }
    }
  }

  lemma LastSegment(segments: seq<string>, values: seq<string>)
    requires |segments| == 1 && |values| == 5
    ensures Clean(segments, 5) && Substitute(segments, values) == Join(segments)
  {
  }

  // ----- the values of a message -----

  /** The character is in no placeholder name. */
  predicate Foreign(c: char) {
    forall name <- NAMES :: c !in name
  }

  lemma ForeignChar(s: string, k: nat)
    requires k < |s| && Foreign(s[k])
    ensures NotInNames(s)
  {
    forall p, i | 0 <= p < 5 ensures !OccursAt(NAMES[p], s, i) {
      OccursChar(NAMES[p], s, i, k);
      assert NAMES[p] in NAMES;
    }
  }

  lemma DigitIsForeign(c: char)
    requires IsDigit(c)
    ensures Foreign(c)
  {
    assert c !in "Severity" && c !in "Time" && c !in "ProcessId" && c !in "ThreadId" && c !in "Text";
  }

  lemma PrintedIsGood(n: nat)
    ensures Plain(Print(n)) && NotInNames(Print(n))
  {
    assert IsDigit(Print(n)[0]);
    DigitIsForeign(Print(n)[0]);
    ForeignChar(Print(n), 0);
  }

  lemma SeverityIsGood(severity: Severity)
    ensures Plain(SeverityToString(severity)) && NotInNames(SeverityToString(severity))
  {
    var s := SeverityToString(severity);
    var k := if severity.TRACE? || severity.INFO? then 1 else 0;
    assert s[k] in "RDNWEF";
    assert Foreign(s[k]) by {
      var c := s[k];
      assert c !in "Severity" && c !in "Time" && c !in "ProcessId" && c !in "ThreadId" && c !in "Text";
    }
    ForeignChar(s, k);
  }

  /** Sequential substitution: for a format of '%'-free literals and the five placeholders once
      each, in any order, `formatMessage` gives the simultaneous substitution and a newline, and
      never anything else. It throws exactly when a literal between two placeholders spells the
      name of a later placeholder that is replaced before both of them. The message text is
      arbitrary: it is never expanded again. */
  lemma FormatIsSubstitution(segments: seq<string>, m: LogMessage)
    requires Template(segments, 0) && AllPlain(segments)
    requires Plain(m.time) && NotInNames(m.time)
    ensures Format(Join(segments), m)
         == if Clean(segments, 0) then Some(Substitute(segments, Values(m)) + "\n") else None
  {
    SeverityIsGood(m.severity);
    PrintedIsGood(m.processId);
    PrintedIsGood(m.threadId);
    StepsSubstitute(segments, 0, Values(m));
  }

  /** One literal and one placeholder in front. */
  lemma Pair(a: string, name: string, rest: seq<string>, values: seq<string>)
    requires |rest| % 2 == 1 && |values| == 5
    ensures Substitute([a, name] + rest, values) == a + ValueOf(name, values) + Substitute(rest, values)
  {
    assert ([a, name] + rest)[2..] == rest;
  }

  lemma RankTable()
    ensures Rank("Severity") == 0 && Rank("Time") == 1 && Rank("ProcessId") == 2 && Rank("ThreadId") == 3
    ensures Rank("Text") == 4 && Rank(" ") == 5
  {
  }

  lemma TemplateByRanks(segments: seq<string>, ranks: seq<nat>)
    requires |segments| == 11 && |ranks| == 5
    requires forall i :: 0 <= i < 5 ==> Rank(segments[2 * i + 1]) == ranks[i]
    requires forall i :: 0 <= i < 5 ==> ranks[i] < 5
    requires forall i, j :: 0 <= i < j < 5 ==> ranks[i] != ranks[j]
    requires forall p :: 0 <= p < 5 ==> p in ranks
    ensures Template(segments, 0)
  {
    hide Rank;
    forall i | OddAt(segments, i) ensures Rank(segments[i]) == ranks[i / 2] {
      assert i == 2 * (i / 2) + 1;
    }
    forall p | 0 <= p < 5 ensures HasPlaceholder(segments, p) {
      assert p in ranks;
      var i :| 0 <= i < 5 && ranks[i] == p;
      assert OddAt(segments, 2 * i + 1);
    }
  }

  lemma UsualTemplate(segments: seq<string>)
    requires segments == ["", "Time", " ", "Severity", " ", "ProcessId", " ", "ThreadId", " ", "Text", ""]
    ensures Template(segments, 0) && AllPlain(segments) && Clean(segments, 0)
  {
    hide Rank, Template;
    RankTable();
    TemplateByRanks(segments, [1, 0, 2, 3, 4]);
    forall j ensures !Confusing(segments, 0, j) {
      if 2 <= j <= 8 && j % 2 == 0 {
        assert segments[j] == " ";
      }
    }
  }

  lemma UsualSegments(segments: seq<string>, m: LogMessage)
    requires segments == ["", "Time", " ", "Severity", " ", "ProcessId", " ", "ThreadId", " ", "Text", ""]
    requires Plain(m.time) && NotInNames(m.time)
    ensures Format(Join(segments), m)
         == Some(m.time + (" " + SeverityToString(m.severity) + (" " + Print(m.processId) + (" " + Print(m.threadId)
                 + (" " + m.text)))) + "\n")
  {
    hide Template, Clean, AllPlain, Format, Substitute, ValueOf;
    UsualTemplate(segments);
    FormatIsSubstitution(segments, m);
    var v := Values(m);
    UsualValues(m);
    LastSegment([""], v);
    Pair(" ", "Text", [""], v);
    Pair(" ", "ThreadId", [" ", "Text", ""], v);
    Pair(" ", "ProcessId", [" ", "ThreadId", " ", "Text", ""], v);
    Pair(" ", "Severity", [" ", "ProcessId", " ", "ThreadId", " ", "Text", ""], v);
    Pair("", "Time", [" ", "Severity", " ", "ProcessId", " ", "ThreadId", " ", "Text", ""], v);
    assert [" ", "Text"] + [""] == [" ", "Text", ""];
    assert [" ", "ThreadId"] + [" ", "Text", ""] == [" ", "ThreadId", " ", "Text", ""];
    assert [" ", "ProcessId"] + [" ", "ThreadId", " ", "Text", ""]
        == [" ", "ProcessId", " ", "ThreadId", " ", "Text", ""];
    assert [" ", "Severity"] + [" ", "ProcessId", " ", "ThreadId", " ", "Text", ""]
        == [" ", "Severity", " ", "ProcessId", " ", "ThreadId", " ", "Text", ""];
    assert ["", "Time"] + [" ", "Severity", " ", "ProcessId", " ", "ThreadId", " ", "Text", ""] == segments;
    assert " " + m.text + "" == " " + m.text && "" + m.time == m.time;
  }

  lemma UsualValues(m: LogMessage)
    ensures var v := Values(m);
            && ValueOf("Severity", v) == SeverityToString(m.severity) && ValueOf("Time", v) == m.time
            && ValueOf("ProcessId", v) == Print(m.processId) && ValueOf("ThreadId", v) == Print(m.threadId)
            && ValueOf("Text", v) == m.text
  {
    RankOfNames();
  }

  lemma ConfusingTemplate(segments: seq<string>)
    requires segments == ["", "Time", "Severity", "ProcessId", " ", "ThreadId", " ", "Severity", " ", "Text", ""]
    ensures Template(segments, 0) && AllPlain(segments)
    ensures Rank(segments[1]) == 1 && Rank(segments[2]) == 0 && Rank(segments[3]) == 2
  {
    hide Rank, Template;
    RankTable();
    TemplateByRanks(segments, [1, 2, 3, 0, 4]);
  }

  /** The format that the programs of the repository use. */
  const USUAL_FORMAT: string := "%Time%" + (" " + "%Severity%" + (" " + "%ProcessId%" + (" " + "%ThreadId%"
                                + (" " + "%Text%"))))

  lemma JoinPair(segments: seq<string>, k: nat)
    requires k + 2 < |segments|
    ensures Join(segments[k..]) == segments[k] + ("%" + segments[k + 1] + "%") + Join(segments[k + 2..])
  {
    assert segments[k..][1..] == segments[k + 1..] && segments[k + 1..][1..] == segments[k + 2..];
    Assoc(segments[k] + "%", segments[k + 1] + "%", Join(segments[k + 2..]));
    Assoc(segments[k], "%", segments[k + 1] + "%");
    Assoc("%", segments[k + 1], "%");
  }

  lemma JoinUsual(segments: seq<string>)
    requires segments == ["", "Time", " ", "Severity", " ", "ProcessId", " ", "ThreadId", " ", "Text", ""]
    ensures Join(segments) == USUAL_FORMAT
  {
    JoinOne("");
    hide Join;
    JoinPair(segments, 0);
    JoinPair(segments, 2);
    JoinPair(segments, 4);
    JoinPair(segments, 6);
    JoinPair(segments, 8);
    assert segments[0..] == segments && segments[10..] == [""];
    PlaceholderTexts();
    assert " " + "%Text%" + "" == " " + "%Text%";
    Assoc(" ", "%ThreadId%", " " + "%Text%");
    assert "" + "%Time%" == "%Time%";
  }

  lemma PlaceholderTexts()
    ensures "%" + "Time" + "%" == "%Time%" && "%" + "Severity" + "%" == "%Severity%"
    ensures "%" + "ProcessId" + "%" == "%ProcessId%" && "%" + "ThreadId" + "%" == "%ThreadId%"
    ensures "%" + "Text" + "%" == "%Text%"
  {
  }

  /** The line of the usual format from the process number on. */
  function UsualTail(m: LogMessage): string {
    Print(m.processId) + (" " + Print(m.threadId) + (" " + m.text)) + "\n"
  }

  /** The usual format gives, for every message, the time, the severity in words, the process,
      the thread and the text, separated by spaces. */
  lemma UsualFormat(m: LogMessage)
    requires Plain(m.time) && NotInNames(m.time)
    ensures m.severity == TRACE ==> Format(USUAL_FORMAT, m) == Some(m.time + " TRACE " + UsualTail(m))
    ensures m.severity == DEBUG ==> Format(USUAL_FORMAT, m) == Some(m.time + " DEBUG " + UsualTail(m))
    ensures m.severity == INFO ==> Format(USUAL_FORMAT, m) == Some(m.time + " INFO " + UsualTail(m))
    ensures m.severity == WARNING ==> Format(USUAL_FORMAT, m) == Some(m.time + " WARNING " + UsualTail(m))
    ensures m.severity == ERROR ==> Format(USUAL_FORMAT, m) == Some(m.time + " ERROR " + UsualTail(m))
    ensures m.severity == FATAL ==> Format(USUAL_FORMAT, m) == Some(m.time + " FATAL " + UsualTail(m))
  {
    hide Format, Join, Print, UsualTail;
    var segments := ["", "Time", " ", "Severity", " ", "ProcessId", " ", "ThreadId", " ", "Text", ""];
    UsualSegments(segments, m);
    JoinUsual(segments);
    LineOf(m);
    assert " TRACE " == " " + "TRACE" + " " && " DEBUG " == " " + "DEBUG" + " " && " INFO " == " " + "INFO" + " ";
    assert " WARNING " == " " + "WARNING" + " " && " ERROR " == " " + "ERROR" + " ";
    assert " FATAL " == " " + "FATAL" + " ";
  }

  lemma LineOf(m: LogMessage)
    ensures m.time + (" " + SeverityToString(m.severity) + (" " + Print(m.processId) + (" " + Print(m.threadId)
              + (" " + m.text)))) + "\n"
         == m.time + (" " + SeverityToString(m.severity) + " ") + UsualTail(m)
  {
    hide Print, SeverityToString;
  }

  /** Different severities show as different words. */
  lemma SeverityIsShown(a: Severity, b: Severity)
    requires SeverityToString(a) == SeverityToString(b)
    ensures a == b
  {
    assert |"TRACE"| == |"DEBUG"| == |"ERROR"| == |"FATAL"| == 5 && |"INFO"| == 4 && |"WARNING"| == 7;
    assert "TRACE"[0] == 'T' && "DEBUG"[0] == 'D' && "ERROR"[0] == 'E' && "FATAL"[0] == 'F';
  }

  /** The word "Severity" between two placeholders makes a format throw that has all five:
      `%Time%Severity%ProcessId% %ThreadId% %Severity% %Text%`. */
  lemma ConfusingFormat(segments: seq<string>, m: LogMessage)
    requires segments == ["", "Time", "Severity", "ProcessId", " ", "ThreadId", " ", "Severity", " ", "Text", ""]
    requires Plain(m.time) && NotInNames(m.time)
    ensures Template(segments, 0) && AllPlain(segments)
    ensures Format(Join(segments), m) == None
  {
    hide Rank, Template, AllPlain, Format;
    ConfusingTemplate(segments);
    assert Confusing(segments, 0, 2);
    FormatIsSubstitution(segments, m);
  }
}
