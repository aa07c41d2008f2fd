/** Grouping the lines of /proc/$pid/maps by ELF file (process_map(), src/lib/maps_l.c). */
module RegionGroups {
  import opened Common

  datatype Line = Line(start: nat, end: nat, read: bool, write: bool, exec: bool, cow: char, path: string)

  datatype RegionType = Misc | Code | Exe | Heap | Stack

  datatype Region = Region(id: nat, start: nat, size: nat, rtype: RegionType, loadAddr: nat,
    exec: bool, shared: bool, priv: bool, path: string)

  /** The static variables of process_map(). */
  datatype State = State(codeRegions: nat, exeRegions: nat, isExe: bool, prevEnd: nat, loadAddr: nat, exeLoad: nat,
    codePath: string)

  function Start(): State
  {
    State(0, 0, false, 0, 0, 0, "")
  }

  /** The open group does not go on with this line. */
  predicate Ends(s: State, m: Line)
  {
    m.exec || (m.path != s.codePath && (m.path != "" || m.start != s.prevEnd)) || s.codeRegions >= 4
  }

  function GrowOrClose(s: State, m: Line): State
  {
    if s.codeRegions == 0 then s
    else if Ends(s, m) then
      s.(codeRegions := 0, isExe := false, exeRegions := if s.exeRegions > 1 then 0 else s.exeRegions)
    else
      s.(codeRegions := s.codeRegions + 1, exeRegions := if s.isExe then s.exeRegions + 1 else s.exeRegions)
  }

  function Open(s: State, exe: Option<string>, m: Line): State
  {
    if s.codeRegions != 0 then s
    else
      var t :=
        if m.exec && m.path != "" then
          var u := s.(codeRegions := 1, codePath := m.path);
          if exe == Some(m.path) then u.(exeRegions := 1, exeLoad := m.start, isExe := true) else u
        else if s.exeRegions == 1 && m.path != "" && exe == Some(m.path) then
          s.(exeRegions := 2, codeRegions := 2, loadAddr := s.exeLoad, isExe := true, codePath := m.path)
        else s;
      if t.exeRegions < 2 then t.(loadAddr := m.start) else t
  }

  function Step(s: State, exe: Option<string>, m: Line): State
  {
    Open(GrowOrClose(s, m), exe, m).(prevEnd := m.end)
  }

  function After(exe: Option<string>, lines: seq<Line>): State
  {
    if lines == [] then Start() else Step(After(exe, lines[..|lines|-1]), exe, lines[|lines|-1])
  }

  /** Type of a region with this line, in the state after the line. */
  function TypeOf(s: State, m: Line): RegionType
  {
    if s.isExe then Exe
    else if s.codeRegions > 0 then Code
    else if m.path == "[heap]" then Heap
    else if m.path == "[stack]" then Stack
    else Misc
  }

  function Size(m: Line): nat
  {
    (m.end - m.start) % PTR_RANGE
  }

  /** Lines with a region of their own. */
  predicate Kept(m: Line)
  {
    (m.write || m.exec) && m.read && Size(m) > 0
  }

  function RegionFor(s: State, m: Line, id: nat): Region
  {
    Region(id, m.start, Size(m), TypeOf(s, m), s.loadAddr, m.exec, m.cow == 's', m.cow == 'p', m.path)
  }

  /** The region list after all lines. */
  function Regions(exe: Option<string>, lines: seq<Line>): seq<Region>
  {
    if lines == [] then []
    else
      var m, before := lines[|lines|-1], Regions(exe, lines[..|lines|-1]);
      if Kept(m) then before + [RegionFor(After(exe, lines), m, |before|)] else before
  }

  // ---------------------------------------------------------------------------
  // The lines a group consists of
  // ---------------------------------------------------------------------------

  /** Line k is the last executable one. */
  ghost predicate LastExec(lines: seq<Line>, k: nat)
  {
    k < |lines| && lines[k].exec && forall j :: k < j < |lines| ==> !lines[j].exec
  }

  /** Line k is the last executable one of the game's own binary. */
  ghost predicate LastExeText(exe: Option<string>, lines: seq<Line>, k: nat)
  {
    k < |lines| && IsExeText(exe, lines[k]) && forall j :: k < j < |lines| ==> !IsExeText(exe, lines[j])
  }

  predicate IsExeText(exe: Option<string>, m: Line)
  {
    m.exec && m.path != "" && exe == Some(m.path)
  }

  /** Line i belongs to the file at path: by its name, or nameless and right behind the line
      before (its .bss). */
  predicate Belongs(lines: seq<Line>, i: nat, path: string)
    requires i < |lines|
  {
    lines[i].path == path || (lines[i].path == "" && i > 0 && lines[i].start == lines[i-1].end)
  }

  /** How many lines from k on are classified as belonging to the binary. */
  function ExeLines(exe: Option<string>, lines: seq<Line>, k: nat): nat
  {
    if |lines| <= k then 0
    else ExeLines(exe, lines[..|lines|-1], k) + (if After(exe, lines).isExe then 1 else 0)
  }

  /** A code group: k is its executable line, everything since is part of it. */
  ghost predicate CodeGroup(exe: Option<string>, lines: seq<Line>, k: nat, s: State)
  {
    && LastExec(lines, k) && lines[k].path != "" && exe != Some(lines[k].path)
    && s.loadAddr == lines[k].start && s.codePath == lines[k].path
    && s.codeRegions == |lines| - k
    && forall i :: k < i < |lines| ==> Belongs(lines, i, lines[k].path)
  }

  /** What is known of the binary: where its text was mapped last, and how many of its lines
      came since. */
  ghost predicate ExeInv(exe: Option<string>, lines: seq<Line>, s: State)
  {
    && (s.exeRegions > 0 ==> exists k :: LastExeText(exe, lines, k))
    && (forall k :: LastExeText(exe, lines, k) ==> TextAt(exe, lines, k, s))
    && (s.isExe ==> s.loadAddr == s.exeLoad && exe == Some(s.codePath) && s.codePath != "")
  }

  ghost predicate TextAt(exe: Option<string>, lines: seq<Line>, k: nat, s: State)
    requires k < |lines|
  {
    && s.exeLoad == lines[k].start && ExeLines(exe, lines, k) <= 4
    && (s.exeRegions > 0 ==> ExeLines(exe, lines, k) == s.exeRegions)
  }

  ghost predicate CodeInv(exe: Option<string>, lines: seq<Line>, s: State)
  {
    s.codeRegions > 0 && !s.isExe ==> exists k :: CodeGroup(exe, lines, k, s)
  }

  ghost predicate Counts(s: State)
  {
    && s.codeRegions <= 4 && s.exeRegions <= 4
    && (s.isExe ==> s.codeRegions == s.exeRegions > 0)
    && (!s.isExe ==> s.exeRegions <= 1)
  }

  ghost predicate Inv(exe: Option<string>, lines: seq<Line>, s: State)
  {
    && Counts(s) && (lines != [] ==> s.prevEnd == lines[|lines|-1].end)
    && ExeInv(exe, lines, s) && CodeInv(exe, lines, s)
  }

  lemma {:induction false} CountsKept(s: State, exe: Option<string>, m: Line)
    requires Counts(s)
    ensures Counts(Step(s, exe, m))
  {}

  /** The text of the binary: the count starts again. */
  lemma {:induction false} TextStep(exe: Option<string>, lines: seq<Line>, m: Line)
    requires Inv(exe, lines, After(exe, lines)) && IsExeText(exe, m)
    ensures ExeInv(exe, lines + [m], After(exe, lines + [m]))
  {
    var new_, n := lines + [m], |lines|;
    assert new_[..n] == lines;
    assert LastExeText(exe, new_, n);
    assert new_[..n+1] == new_ && ExeLines(exe, new_[..n], n) == 0;
    forall k: nat | k != n ensures !LastExeText(exe, new_, k) {
      assert IsExeText(exe, new_[n]);
    }
  }

  lemma {:induction false} OtherStep(exe: Option<string>, lines: seq<Line>, m: Line, k: nat)
    requires Inv(exe, lines, After(exe, lines)) && !IsExeText(exe, m)
    ensures LastExeText(exe, lines + [m], k) <==> LastExeText(exe, lines, k)
    ensures LastExeText(exe, lines, k) ==> TextAt(exe, lines + [m], k, After(exe, lines + [m]))
  {
    var new_, n := lines + [m], |lines|;
    assert new_[..n] == lines;
    CountsKept(After(exe, lines), exe, m);
    assert k < n ==> IsExeText(exe, new_[k]) == IsExeText(exe, lines[k]);
    if LastExeText(exe, lines, k) {
      forall j | k < j < |new_| ensures !IsExeText(exe, new_[j]) {
        if j < n { assert new_[j] == lines[j]; }
      }
    }
    if LastExeText(exe, new_, k) {
      forall j | k < j < n ensures !IsExeText(exe, lines[j]) {
        assert new_[j] == lines[j];
      }
    }
  }

  lemma {:induction false} ExeStep(exe: Option<string>, lines: seq<Line>, m: Line)
    requires Inv(exe, lines, After(exe, lines))
    ensures ExeInv(exe, lines + [m], After(exe, lines + [m]))
  {
    var s := After(exe, lines);
    assert (lines + [m])[..|lines|] == lines;
    if IsExeText(exe, m) {
      TextStep(exe, lines, m);
    } else {
      forall k: nat ensures LastExeText(exe, lines + [m], k) <==> LastExeText(exe, lines, k)
        ensures LastExeText(exe, lines, k) ==> TextAt(exe, lines + [m], k, After(exe, lines + [m]))
      {
        OtherStep(exe, lines, m, k);
      }
    }
  }

  lemma {:induction false} CodeStep(exe: Option<string>, lines: seq<Line>, m: Line)
    requires Inv(exe, lines, After(exe, lines))
    ensures CodeInv(exe, lines + [m], After(exe, lines + [m]))
  {
    var new_, n, s := lines + [m], |lines|, After(exe, lines);
    var t := After(exe, new_);
    assert new_[..n] == lines;
    if t.codeRegions > 0 && !t.isExe {
      if s.codeRegions == 0 || Ends(s, m) {
        assert CodeGroup(exe, new_, n, t);
      } else {
        var k: nat :| CodeGroup(exe, lines, k, s);
        forall i: nat | k < i < |new_| ensures Belongs(new_, i, new_[k].path) && !new_[i].exec {
          if i < n { assert Belongs(lines, i, lines[k].path) && new_[i] == lines[i] && new_[i-1] == lines[i-1]; }
        }
        assert CodeGroup(exe, new_, k, t);
      }
    }
  }

  lemma {:induction false} AllLines(exe: Option<string>, lines: seq<Line>)
    ensures Inv(exe, lines, After(exe, lines))
  {
    if lines != [] {
      var n := |lines| - 1;
      assert lines == lines[..n] + [lines[n]];
      AllLines(exe, lines[..n]);
      CountsKept(After(exe, lines[..n]), exe, lines[n]);
      ExeStep(exe, lines[..n], lines[n]);
      CodeStep(exe, lines[..n], lines[n]);
    }
  }

  // ---------------------------------------------------------------------------
  // What a classification means
  // ---------------------------------------------------------------------------

  /** A line is classified as part of the binary only if it belongs to the binary's file, is
      one of at most four such lines since its text was mapped last, and carries the start of
      that text, whatever was mapped in between. */
  lemma {:induction false} ExeCarriesTextStart(exe: Option<string>, lines: seq<Line>) returns (k: nat)
    requires lines != [] && After(exe, lines).isExe
    ensures LastExeText(exe, lines, k) && After(exe, lines).loadAddr == lines[k].start
    ensures ExeLines(exe, lines, k) <= 4 && exe.Some? && Belongs(lines, |lines| - 1, exe.value)
  {
    var n := |lines| - 1;
    AllLines(exe, lines);
    AllLines(exe, lines[..n]);
    k :| LastExeText(exe, lines, k);
    assert TextAt(exe, lines, k, After(exe, lines));
  }

  /** A line is classified as code only in a run of at most four lines that starts with the
      last executable mapping, all of one file that is not the binary; it carries the start of
      that mapping. */
  lemma {:induction false} CodeCarriesGroupStart(exe: Option<string>, lines: seq<Line>) returns (k: nat)
    requires lines != [] && After(exe, lines).codeRegions > 0 && !After(exe, lines).isExe
    ensures CodeGroup(exe, lines, k, After(exe, lines)) && After(exe, lines).loadAddr == lines[k].start &&
      |lines| - k <= 4
  {
    AllLines(exe, lines);
    k :| CodeGroup(exe, lines, k, After(exe, lines));
  }

  /** Every executable line opens a group of its own, of the right kind. */
  lemma {:induction false} ExecOpensGroup(exe: Option<string>, lines: seq<Line>)
    requires lines != [] && lines[|lines|-1].exec
    ensures
      var s, m := After(exe, lines), lines[|lines|-1];
      && (s.isExe <==> IsExeText(exe, m))
      && (s.codeRegions == 1 <==> m.path != "") && (s.codeRegions == 0 <==> m.path == "")
  {
    AllLines(exe, lines[..|lines|-1]);
  }

  /** Nothing of the binary between its text and its data. */
  predicate Unrelated(exe: Option<string>, text: Line, mids: seq<Line>)
  {
    && (forall i :: 0 <= i < |mids| ==> exe != Some(mids[i].path))
    && (mids != [] && mids[0].path == "" ==> mids[0].exec || mids[0].start != text.end)
  }

  /** The binary's text has been seen, other mappings since. */
  predicate Between(exe: Option<string>, s: State, text: Line)
  {
    s.exeRegions == 1 && s.exeLoad == text.start && !s.isExe && (s.codeRegions > 0 ==> exe != Some(s.codePath))
  }

  lemma {:induction false} FirstBetween(exe: Option<string>, s: State, text: Line, m: Line)
    requires IsExeText(exe, text) && exe != Some(m.path) && (m.path == "" ==> m.exec || m.start != text.end)
    ensures Between(exe, Step(Step(s, exe, text), exe, m), text)
  {}

  lemma {:induction false} NextBetween(exe: Option<string>, s: State, text: Line, m: Line)
    requires Between(exe, s, text) && exe != Some(m.path)
    ensures Between(exe, Step(s, exe, m), text)
  {}

  lemma {:induction false} AfterOneMore(exe: Option<string>, lines: seq<Line>, m: Line)
    ensures After(exe, lines + [m]) == Step(After(exe, lines), exe, m)
  {
    assert (lines + [m])[..|lines|] == lines;
  }

  lemma {:induction false} BetweenTextAndData(exe: Option<string>, before: seq<Line>, text: Line, mids: seq<Line>)
    requires IsExeText(exe, text) && Unrelated(exe, text, mids) && mids != []
    ensures Between(exe, After(exe, before + [text] + mids), text)
  {
    var n := |mids| - 1;
    assert before + [text] + mids == before + [text] + mids[..n] + [mids[n]];
    AfterOneMore(exe, before + [text] + mids[..n], mids[n]);
    if n > 0 {
      BetweenTextAndData(exe, before, text, mids[..n]);
      NextBetween(exe, After(exe, before + [text] + mids[..n]), text, mids[n]);
    } else {
      assert before + [text] + mids[..0] == before + [text];
      AfterOneMore(exe, before, text);
      FirstBetween(exe, After(exe, before), text, mids[0]);
    }
  }

  /** However many unrelated mappings lie between, the data of the binary is recognised and
      carries the start of the text. */
  lemma {:induction false} DataIsResumed(exe: Option<string>, before: seq<Line>, text: Line, mids: seq<Line>,
        data: Line)
    requires IsExeText(exe, text) && Unrelated(exe, text, mids) && exe == Some(data.path) && !data.exec
    ensures
      var s := After(exe, before + [text] + mids + [data]);
      s.isExe && s.loadAddr == text.start && s.exeRegions == 2
  {
    AfterOneMore(exe, before + [text] + mids, data);
    if mids != [] {
      BetweenTextAndData(exe, before, text, mids);
    } else {
      assert before + [text] + mids == before + [text];
      AfterOneMore(exe, before, text);
    }
  }

  /** Regions are numbered in order, and each stands for one line, typed and placed by the
      lines up to it. */
  lemma {:induction false} RegionsFromLines(exe: Option<string>, lines: seq<Line>, i: nat) returns (n: nat)
    requires i < |Regions(exe, lines)|
    ensures 0 < n <= |lines| && Kept(lines[n-1]) && |Regions(exe, lines[..n-1])| == i
    ensures Regions(exe, lines)[i] == RegionFor(After(exe, lines[..n]), lines[n-1], i)
  {
    var l := |lines| - 1;
    if i < |Regions(exe, lines[..l])| {
      n := RegionsFromLines(exe, lines[..l], i);
      assert lines[..l][..n] == lines[..n] && lines[..l][..n-1] == lines[..n-1];
    } else {
      n := |lines|;
      assert lines[..n] == lines;
    }
  }

  // ---------------------------------------------------------------------------
  // What the region list says
  // ---------------------------------------------------------------------------

  /** Readable, writable or executable, and not empty. */
  predicate HasRegion(m: Line)
  {
    m.read && (m.write || m.exec) && (m.end - m.start) % PTR_RANGE != 0
  }

  /** How many of the first k lines have a region. */
  function RegionsBefore(lines: seq<Line>, k: nat): (n: nat)
    requires k <= |lines|
  {
    if k == 0 then 0 else RegionsBefore(lines, k - 1) + if HasRegion(lines[k-1]) then 1 else 0
  }

  /** An executable line of the binary's file. */
  predicate TextOf(exe: Option<string>, m: Line) { m.exec && exe.Some? && m.path != "" && m.path == exe.value }

  /** Line t is the last one of the binary's text up to line k. */
  ghost predicate LastTextUpTo(exe: Option<string>, lines: seq<Line>, k: nat, t: nat)
  {
    t <= k < |lines| && TextOf(exe, lines[t]) && forall j :: t < j <= k ==> !TextOf(exe, lines[j])
  }

  /** Line t is the last executable one up to line k. */
  ghost predicate LastExecUpTo(lines: seq<Line>, k: nat, t: nat)
  {
    t <= k < |lines| && lines[t].exec && forall j :: t < j <= k ==> !lines[j].exec
  }

  /** Line k is of this file, or nameless and right behind the line before. */
  predicate OfFile(lines: seq<Line>, k: nat, path: string)
    requires k < |lines|
  {
    lines[k].path == path || (lines[k].path == "" && k > 0 && lines[k].start == lines[k-1].end)
  }

  /** Part of the binary: it carries where the text of the binary was mapped last. */
  ghost predicate OfExe(exe: Option<string>, lines: seq<Line>, k: nat, loadAddr: nat)
    requires k < |lines|
  {
    exe.Some? && OfFile(lines, k, exe.value) &&
      exists t: nat :: LastTextUpTo(exe, lines, k, t) && loadAddr == lines[t].start
  }

  /** Part of another file: it carries where that was mapped executable, at most three lines
      before and with nothing executable in between. */
  ghost predicate OfLibrary(exe: Option<string>, lines: seq<Line>, k: nat, loadAddr: nat)
    requires k < |lines|
  {
    exists t: nat :: LastExecUpTo(lines, k, t) && loadAddr == lines[t].start && k < t + 4 && lines[t].path != "" &&
      exe != Some(lines[t].path) && (k == t || OfFile(lines, k, lines[t].path))
  }

  /** What the region of line k says. */
  ghost predicate Says(exe: Option<string>, lines: seq<Line>, k: nat, r: Region)
    requires k < |lines|
  {
    var m := lines[k];
    && r.start == m.start && (r.start + r.size - m.end) % PTR_RANGE == 0 && r.size < PTR_RANGE
    && r.path == m.path && r.exec == m.exec && (r.shared <==> m.cow == 's') && (r.priv <==> m.cow == 'p')
    && (r.rtype.Exe? ==> OfExe(exe, lines, k, r.loadAddr))
    && (r.rtype.Code? ==> OfLibrary(exe, lines, k, r.loadAddr))
    && (m.exec ==> (r.rtype.Exe? <==> TextOf(exe, m)) && (r.rtype.Code? <==> m.path != "" && !TextOf(exe, m)))
    && (!r.rtype.Exe? && !r.rtype.Code? ==>
         r.loadAddr == m.start && (r.rtype.Heap? <==> m.path == "[heap]") && (r.rtype.Stack? <==> m.path == "[stack]"))
  }

  /** One region per line that has one, numbered in order. */
  ghost predicate AllSay(exe: Option<string>, lines: seq<Line>, rs: seq<Region>)
  {
    && |rs| == RegionsBefore(lines, |lines|)
    && (forall i :: 0 <= i < |rs| ==> rs[i].id == i)
    && forall k :: 0 <= k < |lines| && HasRegion(lines[k]) ==>
         RegionsBefore(lines, k) < |rs| && Says(exe, lines, k, rs[RegionsBefore(lines, k)])
  }

  lemma {:induction false} LastSaysExe(exe: Option<string>, lines: seq<Line>)
    requires lines != [] && After(exe, lines).isExe
    ensures OfExe(exe, lines, |lines| - 1, After(exe, lines).loadAddr)
  {
    var t := ExeCarriesTextStart(exe, lines);
    forall j | 0 <= j < |lines| ensures IsExeText(exe, lines[j]) == TextOf(exe, lines[j]) {}
    assert LastTextUpTo(exe, lines, |lines| - 1, t);
  }

  lemma {:induction false} LastSaysCode(exe: Option<string>, lines: seq<Line>)
    requires lines != [] && After(exe, lines).codeRegions > 0 && !After(exe, lines).isExe
    ensures OfLibrary(exe, lines, |lines| - 1, After(exe, lines).loadAddr)
  {
    var t := CodeCarriesGroupStart(exe, lines);
    assert LastExecUpTo(lines, |lines| - 1, t);
    assert |lines| - 1 > t ==> Belongs(lines, |lines| - 1, lines[t].path);
  }

  lemma {:induction false} LastSaysOwn(exe: Option<string>, lines: seq<Line>)
    requires lines != [] && After(exe, lines).codeRegions == 0
    ensures !After(exe, lines).isExe && After(exe, lines).loadAddr == lines[|lines|-1].start
  {
    AllLines(exe, lines);
    AllLines(exe, lines[..|lines|-1]);
  }

  lemma {:induction false} LastSays(exe: Option<string>, lines: seq<Line>, id: nat)
    requires lines != []
    ensures Says(exe, lines, |lines| - 1, RegionFor(After(exe, lines), lines[|lines|-1], id))
  {
    var s, m := After(exe, lines), lines[|lines|-1];
    AllLines(exe, lines);
    if s.isExe {
      LastSaysExe(exe, lines);
    } else if s.codeRegions > 0 {
      LastSaysCode(exe, lines);
    } else {
      LastSaysOwn(exe, lines);
    }
    if m.exec { ExecOpensGroup(exe, lines); }
  }

  lemma {:induction false} SaysStill(exe: Option<string>, lines: seq<Line>, m: Line, k: nat, r: Region)
    requires k < |lines| && Says(exe, lines, k, r)
    ensures Says(exe, lines + [m], k, r)
  {
    var more := lines + [m];
    assert forall j :: 0 <= j <= k ==> more[j] == lines[j];
    if r.rtype.Exe? {
      var t: nat :| LastTextUpTo(exe, lines, k, t) && r.loadAddr == lines[t].start;
      assert LastTextUpTo(exe, more, k, t);
    } else if r.rtype.Code? {
      var t: nat :| LastExecUpTo(lines, k, t) && r.loadAddr == lines[t].start && k < t + 4 && lines[t].path != "" &&
        exe != Some(lines[t].path) && (k == t || OfFile(lines, k, lines[t].path));
      assert LastExecUpTo(more, k, t);
    }
  }

  lemma {:induction false} BeforeStill(lines: seq<Line>, m: Line, k: nat)
    requires k <= |lines|
    ensures RegionsBefore(lines + [m], k) == RegionsBefore(lines, k) <= RegionsBefore(lines, |lines|)
    ensures k < |lines| && HasRegion(lines[k]) ==> RegionsBefore(lines, k) < RegionsBefore(lines, |lines|)
    decreases |lines| + 1, k
  {
    if k > 0 { SameBefore(lines, m, k); }
    BeforeGrows(lines, k);
  }

  lemma {:induction false} SameBefore(lines: seq<Line>, m: Line, k: nat)
    requires k <= |lines|
    ensures RegionsBefore(lines + [m], k) == RegionsBefore(lines, k)
  {
    if k > 0 { SameBefore(lines, m, k - 1); }
  }

  lemma {:induction false} BeforeGrows(lines: seq<Line>, k: nat)
    requires k <= |lines|
    ensures RegionsBefore(lines, k) <= RegionsBefore(lines, |lines|)
    ensures k < |lines| && HasRegion(lines[k]) ==> RegionsBefore(lines, k) < RegionsBefore(lines, |lines|)
    decreases |lines| - k
  {
    if k < |lines| { BeforeGrows(lines, k + 1); }
  }

  /** The region list says of every line what it stands for. */
  lemma {:induction false} RegionsSay(exe: Option<string>, lines: seq<Line>)
    ensures AllSay(exe, lines, Regions(exe, lines))
  {
    if lines != [] {
      var n := |lines| - 1;
      RegionsSay(exe, lines[..n]);
      assert lines == lines[..n] + [lines[n]];
      OneMoreSays(exe, lines[..n], lines[n], Regions(exe, lines[..n]));
    }
  }

  lemma {:induction false} OneMoreSays(exe: Option<string>, lines: seq<Line>, m: Line, rs: seq<Region>)
    requires AllSay(exe, lines, rs) && rs == Regions(exe, lines)
    ensures AllSay(exe, lines + [m], Regions(exe, lines + [m]))
  {
    var more := lines + [m];
    var all := Regions(exe, more);
    OneMore(exe, lines, m);
    BeforeStill(lines, m, |lines|);
    LastSays(exe, more, |rs|);
    forall k | 0 <= k < |more| && HasRegion(more[k])
      ensures RegionsBefore(more, k) < |all| && Says(exe, more, k, all[RegionsBefore(more, k)])
    {
      if k < |lines| {
        BeforeStill(lines, m, k);
        SaysStill(exe, lines, m, k, rs[RegionsBefore(lines, k)]);
      }
    }
  }

  /** Data of the binary that is kept is a region of the binary and carries the start of its
      text, however many unrelated mappings lie between. */
  lemma {:induction false} DataRegion(exe: Option<string>, before: seq<Line>, text: Line, mids: seq<Line>, data: Line)
    requires TextOf(exe, text) && Unrelated(exe, text, mids) && exe == Some(data.path) && !data.exec && HasRegion(data)
    ensures
      var rs := Regions(exe, before + [text] + mids + [data]);
      rs != [] && rs[|rs|-1].start == data.start && rs[|rs|-1].rtype == Exe && rs[|rs|-1].loadAddr == text.start
  {
    DataIsResumed(exe, before, text, mids, data);
    OneMore(exe, before + [text] + mids, data);
  }

  // ---------------------------------------------------------------------------
  // The callback
  // ---------------------------------------------------------------------------

  class MapReader {
    const exePath: Option<string>
    var codeRegions: nat
    var exeRegions: nat
    var isExe: bool
    var prevEnd: nat
    var loadAddr: nat
    var exeLoad: nat
    var codePath: string
    var regions: seq<Region>
    ghost var lines: seq<Line>    // all lines so far

    ghost predicate Valid()
      reads this
    {
      View() == After(exePath, lines) && regions == Regions(exePath, lines)
    }

    ghost function View(): State
      reads this
    {
      State(codeRegions, exeRegions, isExe, prevEnd, loadAddr, exeLoad, codePath)
    }

    constructor (exePath: Option<string>)
      ensures Valid() && lines == [] && this.exePath == exePath
    {
      this.exePath := exePath;
      codeRegions, exeRegions, isExe, prevEnd, loadAddr, exeLoad, codePath := 0, 0, false, 0, 0, 0, "";
      regions, lines := [], [];
    }

    /** process_map() */
    method ProcessMap(map_: Line)
      requires Valid()
      modifies this
      ensures Valid() && lines == old(lines) + [map_] && AllSay(exePath, lines, regions)
    {
      OneMore(exePath, lines, map_);
      RegionsNumbered(exePath, lines);
      GroupLine(map_);
      lines := lines + [map_];
      if (map_.write || map_.exec) && map_.read && (map_.end - map_.start) % PTR_RANGE > 0 {
        AppendRegion(map_);
      }
      ListSays();
    }

    lemma {:induction false} ListSays()
      requires Valid()
      ensures AllSay(exePath, lines, regions)
    {
      RegionsSay(exePath, lines);
    }

    /** Its second half: the region is appended with the next number. */
    method AppendRegion(map_: Line)
      requires Numbered(regions)
      modifies `regions
      ensures regions == old(regions) + [RegionFor(View(), map_, |old(regions)|)]
    {
      var rtype := Misc;
      if isExe {
        rtype := Exe;
      } else if codeRegions > 0 {
        rtype := Code;
      } else if map_.path == "[heap]" {
        rtype := Heap;
      } else if map_.path == "[stack]" {
        rtype := Stack;
      }
      var id: nat := 0;
      if |regions| > 0 { id := regions[|regions|-1].id + 1; }
      regions := regions + [Region(id, map_.start, (map_.end - map_.start) % PTR_RANGE, rtype, loadAddr,
                                   map_.exec, map_.cow == 's', map_.cow == 'p', map_.path)];
    }

    /** Its first half: which group the line belongs to. */
    method GroupLine(map_: Line)
      modifies `codeRegions, `exeRegions, `isExe, `prevEnd, `loadAddr, `exeLoad, `codePath
      ensures View() == Step(old(View()), exePath, map_)
    {
      if codeRegions > 0 {
        if map_.exec || (map_.path != codePath && (map_.path != "" || map_.start != prevEnd)) || codeRegions >= 4 {
          codeRegions := 0;
          isExe := false;
          if exeRegions > 1 { exeRegions := 0; }
        } else {
          codeRegions := codeRegions + 1;
          if isExe { exeRegions := exeRegions + 1; }
        }
      }
      if codeRegions == 0 {
        if map_.exec && map_.path != "" {
          codeRegions := codeRegions + 1;
          if exePath.Some? && map_.path == exePath.value {
            exeRegions := 1;
            exeLoad := map_.start;
            isExe := true;
          }
          codePath := map_.path;
        } else if exeRegions == 1 && map_.path != "" && exePath.Some? && map_.path == exePath.value {
          exeRegions := exeRegions + 1;
          codeRegions := exeRegions;
          loadAddr := exeLoad;
          isExe := true;
          codePath := map_.path;
        }
        if exeRegions < 2 { loadAddr := map_.start; }
      }
      prevEnd := map_.end;
    }
  }

  lemma {:induction false} OneMore(exe: Option<string>, lines: seq<Line>, m: Line)
    ensures After(exe, lines + [m]) == Step(After(exe, lines), exe, m)
    ensures Regions(exe, lines + [m]) == var before := Regions(exe, lines);
      if Kept(m) then before + [RegionFor(After(exe, lines + [m]), m, |before|)] else before
  {
    assert (lines + [m])[..|lines|] == lines;
  }

  predicate Numbered(r: seq<Region>)
  {
    forall i :: 0 <= i < |r| ==> r[i].id == i
  }

  lemma {:induction false} RegionsNumbered(exe: Option<string>, lines: seq<Line>)
    ensures Numbered(Regions(exe, lines))
  {
    var r := Regions(exe, lines);
    forall i | 0 <= i < |r| ensures r[i].id == i {
      var n := RegionsFromLines(exe, lines, i);
    }
  }
}
