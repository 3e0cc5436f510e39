/**
  The owner lookup of `alpr.rs`: a plate read by OCR is matched against the user's lines
  "PLATE=Name", exactly if possible, otherwise up to one misread character.
 */
module PlateMatcher {
  import opened Options
  import opened Seqs
  import opened EditDistance

  const MIN_FUZZY := 4

  predicate IsAlnum(c: char) { '0' <= c <= '9' || 'A' <= c <= 'Z' || 'a' <= c <= 'z' }

  function Upper(c: char): char { if 'a' <= c <= 'z' then (c as int - 32) as char else c }

  predicate IsSpace(c: char) { c == ' ' || ('\t' <= c <= '\r') }

  /** Uppercase letters and digits only. */
  function Norm(s: string): string {
    if s == [] then []
    else
      var rest := Norm(s[..|s| - 1]);
      if IsAlnum(s[|s| - 1]) then rest + [Upper(s[|s| - 1])] else rest
  }

  function Trim(s: string): string
    decreases |s|
  {
    if s == [] then []
    else if IsSpace(s[0]) then Trim(s[1..])
    else if IsSpace(s[|s| - 1]) then Trim(s[..|s| - 1])
    else s
  }

  predicate AllSpace(s: string) { forall i :: 0 <= i < |s| ==> IsSpace(s[i]) }

  /** `t` is `s` without the blanks around it. */
  ghost predicate Trimmed(s: string, t: string) {
    && (exists a, b :: AllSpace(a) && AllSpace(b) && s == a + t + b)
    && (t != "" ==> !IsSpace(t[0]) && !IsSpace(t[|t| - 1]))
  }

  lemma TrimmedMore(s: string, t: string, a: string, b: string)
    requires Trimmed(s, t) && AllSpace(a) && AllSpace(b)
    ensures Trimmed(a + s + b, t)
  {
    var c, d :| AllSpace(c) && AllSpace(d) && s == c + t + d;
    assert a + s + b == (a + c) + t + (d + b);
    assert AllSpace(a + c) && AllSpace(d + b);
  }

  lemma AlreadyTrimmed(s: string)
    requires s != "" ==> !IsSpace(s[0]) && !IsSpace(s[|s| - 1])
    ensures Trimmed(s, s)
  {
    assert AllSpace("") && s == "" + s + "";
  }

  lemma {:induction false} TrimExactly(s: string)
    ensures Trimmed(s, Trim(s))
    decreases |s|
  {
    hide Trimmed, IsSpace;
    if s != [] && IsSpace(s[0]) {
      TrimExactly(s[1..]);
      TrimmedMore(s[1..], Trim(s), [s[0]], []);
      assert [s[0]] + s[1..] + [] == s;
    } else if s != [] && IsSpace(s[|s| - 1]) {
      TrimExactly(s[..|s| - 1]);
      TrimmedMore(s[..|s| - 1], Trim(s), [], [s[|s| - 1]]);
      assert [] + s[..|s| - 1] + [s[|s| - 1]] == s;
    } else {
      AlreadyTrimmed(s);
    }
  }

  /** The line cut at its first '='. */
  function SplitOnce(line: string, from: nat): Option<(string, string)>
    requires from <= |line|
    decreases |line| - from
  {
    if from == |line| then None
    else if line[from] == '=' then Some((line[..from], line[from + 1..]))
    else SplitOnce(line, from + 1)
  }

  datatype Entry = Entry(plate: string, name: string)

  /** A usable line has a plate with at least one letter or digit, and a name. */
  function EntryOf(line: string): Option<Entry> {
    match SplitOnce(line, 0)
    case None => None
    case Some((p, n)) => if Norm(p) != [] && Trim(n) != [] then Some(Entry(Norm(p), Trim(n))) else None
  }

  /** `line` has its first '=' right behind `p`, and `n` behind that. */
  predicate CutAt(line: string, p: string, n: string) { line == p + "=" + n && '=' !in p }

  lemma CutHasSign(line: string, p: string, n: string)
    requires CutAt(line, p, n)
    ensures '=' in line
  {
    assert line[|p|] == '=';
  }

  lemma CutAtFirst(line: string, p: string, n: string, from: nat)
    requires CutAt(line, p, n) && from < |line| && '=' !in line[..from] && line[from] == '='
    ensures p == line[..from] && n == line[from + 1..]
  {
    forall i | 0 <= i < from ensures line[i] != '=' { assert line[i] == line[..from][i]; }
    assert line[|p|] == '=' && forall i :: 0 <= i < |p| ==> line[i] == p[i];
    assert |p| == from;
  }

  lemma {:induction false} SplitExactly(line: string, p: string, n: string, from: nat)
    requires from <= |line| && '=' !in line[..from]
    ensures SplitOnce(line, from) == Some((p, n)) <==> CutAt(line, p, n)
    decreases |line| - from
  {
    if from == |line| {
      TakeAll(line);
      if CutAt(line, p, n) { CutHasSign(line, p, n); }
    } else if line[from] == '=' {
      assert line == line[..from] + "=" + line[from + 1..];
      if CutAt(line, p, n) { CutAtFirst(line, p, n, from); }
    } else {
      TakeNext(line, from);
      SplitExactly(line, p, n, from + 1);
    }
  }

  /** A line is usable exactly if there is a plate in front of its first '=' and a name behind it. */
  lemma EntryExactly(line: string, e: Entry)
    ensures EntryOf(line) == Some(e)
            <==> && e.plate != "" && e.name != ""
                 && exists p, n :: CutAt(line, p, n) && e.plate == Norm(p) && e.name == Trim(n)
  {
    hide Norm, Trim, CutAt;
    if EntryOf(line) == Some(e) {
      var (p, n) := SplitOnce(line, 0).value;
      SplitExactly(line, p, n, 0);
    }
    if exists p, n :: CutAt(line, p, n) && e.plate == Norm(p) && e.name == Trim(n) {
      var p, n :| CutAt(line, p, n) && e.plate == Norm(p) && e.name == Trim(n);
      SplitExactly(line, p, n, 0);
    }
  }

  function Known(lines: seq<string>): seq<Entry> {
    if lines == [] then []
    else
      var rest := Known(lines[..|lines| - 1]);
      match EntryOf(lines[|lines| - 1]) case None => rest case Some(e) => rest + [e]
  }

  /** The first entry from `from` on that satisfies the test. */
  function FirstIndex(known: seq<Entry>, test: Entry -> bool, from: nat): (r: Option<nat>)
    requires from <= |known|
    ensures r.Some? ==> from <= r.value < |known|
    decreases |known| - from
  {
    if from == |known| then None
    else if test(known[from]) then Some(from)
    else FirstIndex(known, test, from + 1)
  }

  function IsExactly(target: string): Entry -> bool { (e: Entry) => e.plate == target }

  function IsNear(target: string): Entry -> bool {
    (e: Entry) => |e.plate| >= MIN_FUZZY && Dist(e.plate, target) == 1
  }

  /** `match_known_plate` on the lines of the setting. */
  function MatchKnownPlate(plate: string, lines: seq<string>): Option<string> {
    var target := Norm(plate);
    var known := Known(lines);
    if target == [] then None
    else
      match FirstIndex(known, IsExactly(target), 0)
      case Some(i) => Some(known[i].name)
      case None =>
        if |target| < MIN_FUZZY then None
        else
          match FirstIndex(known, IsNear(target), 0)
          case None => None
          case Some(i) =>
            if FirstIndex(known, IsNear(target), i + 1).None? then Some(known[i].name) else None
  }

  lemma {:induction false} FirstIndexIsFirst(known: seq<Entry>, test: Entry -> bool, from: nat)
    requires from <= |known|
    ensures match FirstIndex(known, test, from)
            case Some(i) => from <= i < |known| && test(known[i]) && forall k :: from <= k < i ==> !test(known[k])
            case None => forall k :: from <= k < |known| ==> !test(known[k])
    decreases |known| - from
  {
    if from < |known| && !test(known[from]) { FirstIndexIsFirst(known, test, from + 1); }
  }

  /** A known plate one misread character away, both plates long enough for guessing. */
  ghost predicate Near(target: string, e: Entry) {
    |target| >= MIN_FUZZY && |e.plate| >= MIN_FUZZY && OneMisread(e.plate, target)
  }

  /** Entry `i` is the one the owner lookup must name. */
  ghost predicate Owns(target: string, known: seq<Entry>, i: nat) {
    && target != [] && i < |known|
    && ((known[i].plate == target && forall k :: 0 <= k < i ==> known[k].plate != target)
        || ((forall k :: 0 <= k < |known| ==> known[k].plate != target)
            && Near(target, known[i])
            && forall k :: 0 <= k < |known| && Near(target, known[k]) ==> k == i))
  }

  lemma NearIsNear(target: string, e: Entry)
    requires |target| >= MIN_FUZZY
    ensures IsNear(target)(e) <==> Near(target, e)
  {
    hide Dist, OneMisread;
    OneIffMisread(e.plate, target);
  }

  /**
    The lookup, exactly: it names the first line with the very plate; failing that, the only line
    whose plate is one misread character away; and nobody in every other case.
   */
  lemma MatchNamesTheOwner(plate: string, lines: seq<string>)
    ensures match MatchKnownPlate(plate, lines)
            case Some(name) => exists i: nat :: Owns(Norm(plate), Known(lines), i) && Known(lines)[i].name == name
            case None => forall i: nat :: !Owns(Norm(plate), Known(lines), i)
  {
    hide Dist, OneMisread, Norm, Known, FirstIndex, IsNear, Near;
    var target, known := Norm(plate), Known(lines);
    FirstIndexIsFirst(known, IsExactly(target), 0);
    match FirstIndex(known, IsExactly(target), 0)
    case Some(i) => assert target != [] ==> Owns(target, known, i);
    case None =>
      if |target| >= MIN_FUZZY {
        OnlyNearOwns(target, known);
      } else {
        assert forall e :: !Near(target, e) by { ShortIsNotNear(target); }
      }
  }

  lemma ShortIsNotNear(target: string)
    requires |target| < MIN_FUZZY
    ensures forall e :: !Near(target, e)
  {
  }

  lemma OnlyNearOwns(target: string, known: seq<Entry>)
    requires |target| >= MIN_FUZZY && forall k :: 0 <= k < |known| ==> known[k].plate != target
    ensures match FirstIndex(known, IsNear(target), 0)
            case None => forall i: nat :: !Owns(target, known, i)
            case Some(i) => if FirstIndex(known, IsNear(target), i + 1).None? then Owns(target, known, i)
                            else forall j: nat :: !Owns(target, known, j)
  {
    hide Dist, OneMisread, FirstIndex, IsNear, Near;
    forall k | 0 <= k < |known| ensures IsNear(target)(known[k]) <==> Near(target, known[k]) {
      NearIsNear(target, known[k]);
    }
    FirstIndexIsFirst(known, IsNear(target), 0);
    match FirstIndex(known, IsNear(target), 0)
    case None =>
    case Some(i) => FirstIndexIsFirst(known, IsNear(target), i + 1);
  }

  predicate NormalChar(c: char) { '0' <= c <= '9' || 'A' <= c <= 'Z' }

  predicate IsNormal(s: string) {
    forall i :: 0 <= i < |s| ==> NormalChar(s[i])
  }

  lemma UpperIsNormal(c: char)
    requires IsAlnum(c)
    ensures NormalChar(Upper(c)) && (NormalChar(c) ==> Upper(c) == c)
  {
  }

  lemma {:induction false} NormIsNormal(s: string)
    ensures IsNormal(Norm(s))
    ensures IsNormal(s) ==> Norm(s) == s
  {
    if s != [] {
      var c := s[|s| - 1];
      NormIsNormal(s[..|s| - 1]);
      InitLast(s);
      if IsAlnum(c) { UpperIsNormal(c); }
    }
  }

  // ---------------------------------------------------------------- plates against lines

  ghost function NearPlates(target: string, known: seq<Entry>): set<string> {
    set i | 0 <= i < |known| && Near(target, known[i]) :: known[i].plate
  }

  /** Several lines that are all for the one plate close to the read. */
  ghost predicate SamePlateTwice(target: string, known: seq<Entry>) {
    exists i, j :: 0 <= i < j < |known| && Near(target, known[i]) && NearPlates(target, known) == {known[i].plate}
                   && Near(target, known[j])
  }

  /**
    The promise is "only when exactly one known plate is that close". The code counts lines, so
    without an exact match it holds exactly unless that plate stands on several lines.
   */
  lemma FuzzyPromiseExactly(plate: string, lines: seq<string>)
    requires var target := Norm(plate); target != [] && forall e :: e in Known(lines) ==> e.plate != target
    ensures (MatchKnownPlate(plate, lines).Some? <==> |NearPlates(Norm(plate), Known(lines))| == 1)
            <==> !SamePlateTwice(Norm(plate), Known(lines))
  {
    hide Near, Norm, Known, MatchKnownPlate;
    var target, known := Norm(plate), Known(lines);
    MatchNamesTheOwner(plate, lines);
    assert (exists i: nat :: Owns(target, known, i)) <==> MatchKnownPlate(plate, lines).Some?;
    PromiseOnLines(target, known);
  }

  lemma PromiseOnLines(target: string, known: seq<Entry>)
    requires target != [] && forall k :: 0 <= k < |known| ==> known[k].plate != target
    ensures ((exists i: nat :: Owns(target, known, i)) <==> |NearPlates(target, known)| == 1)
            <==> !SamePlateTwice(target, known)
  {
    hide Near;
    var near := NearPlates(target, known);
    if i: nat :| i < |known| && Near(target, known[i]) {
      assert known[i].plate in near;
      if |near| == 1 {
        OneElement(near, known[i].plate);
        if k :| 0 <= k < |known| && Near(target, known[k]) && k != i {
          assert known[k].plate in near;
          assert SamePlateTwice(target, known);
          assert forall j: nat :: !Owns(target, known, j);
        } else {
          assert Owns(target, known, i);
        }
      } else {
        MoreElements(near, known[i].plate);
        var k :| 0 <= k < |known| && Near(target, known[k]) && known[k].plate != known[i].plate;
        assert forall j: nat :: !Owns(target, known, j);
      }
    } else {
      assert near == {};
    }
  }

  lemma OneElement(s: set<string>, x: string)
    requires x in s && |s| == 1
    ensures s == {x}
  {
    assert |s - {x}| == 0;
  }

  lemma MoreElements(s: set<string>, x: string)
    requires x in s && |s| != 1
    ensures exists y :: y in s && y != x
  {
    assert |s - {x}| == |s| - 1 > 0;
    var y :| y in s - {x};
  }

  lemma KnownOfOneLine(line: string, e: Entry)
    requires EntryOf(line) == Some(e)
    ensures Known([line]) == [e] && Known([line, line]) == [e, e]
  {
    assert [line, line][..1] == [line] && [line][..0] == [];
  }

  lemma SampleLine()
    ensures EntryOf("ABC123=Mum") == Some(Entry("ABC123", "Mum"))
  {
    var line := "ABC123=Mum";
    SplitExactly(line, "ABC123", "Mum", 0);
    assert CutAt(line, "ABC123", "Mum");
    hide SplitOnce, CutAt;
    NormIsNormal("ABC123");
  }

  lemma SampleIsNear(e: Entry)
    requires e.plate == "ABC123"
    ensures Near("ABC124", e)
  {
    assert Replaced("ABC123", "ABC124", 5);
  }

  lemma TwoLinesHideTheOwner(plate: string, line: string, e: Entry)
    requires EntryOf(line) == Some(e) && Norm(plate) != [] && e.plate != Norm(plate) && Near(Norm(plate), e)
    ensures MatchKnownPlate(plate, [line, line]).None? && MatchKnownPlate(plate, [line]) == Some(e.name)
  {
    hide MatchKnownPlate, Near, EntryOf, Known, Norm;
    KnownOfOneLine(line, e);
    MatchNamesTheOwner(plate, [line]);
    MatchNamesTheOwner(plate, [line, line]);
    assert Owns(Norm(plate), [e], 0);
    assert Near(Norm(plate), [e, e][0]) && Near(Norm(plate), [e, e][1]);
  }

  /** An input on which it fails: one plate on two lines, read with its last character wrong. */
  lemma DuplicateLineHidesTheOwner()
    ensures MatchKnownPlate("ABC124", ["ABC123=Mum", "ABC123=Mum"]).None?
    ensures MatchKnownPlate("ABC124", ["ABC123=Mum"]) == Some("Mum")
  {
    hide MatchKnownPlate, Near, EntryOf;
    var e := Entry("ABC123", "Mum");
    NormIsNormal("ABC124");
    SampleLine();
    SampleIsNear(e);
    assert "ABC123"[5] != "ABC124"[5];
    TwoLinesHideTheOwner("ABC124", "ABC123=Mum", e);
  }
}
