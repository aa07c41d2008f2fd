/** Reading the configuration in the game, within one buffer (memhack_init(),
    src/linuxhooking/libmemhack.c): a cursor moves over it, names are cut off with NULs. */
module HookReader {
  import opened Common
  import opened Numbers
  import opened HookConfig

  const NUL := 0 as char

  class Input {
    var ibuf: array<char>
    var start: nat
    ghost var end: nat       // where the string at the cursor ends

    ghost predicate Valid()
      reads this, ibuf
    {
      && start <= end < ibuf.Length && ibuf[end] == NUL
      && forall i :: start <= i < end ==> ibuf[i] != NUL
    }

    /** The string at the cursor. */
    ghost function Line(): string
      requires Valid()
      reads this, ibuf
    {
      ibuf[start..end]
    }

    /** What read_input() left: the bytes received, with a NUL behind them. */
    constructor (received: string)
      requires NUL !in received
      ensures Valid() && Line() == received && fresh(ibuf)
    {
      ibuf := new char[|received| + 1](i requires 0 <= i => if i < |received| then received[i] else NUL);
      start, end := 0, |received|;
    }

    /** strchr() from the cursor on; the index found, or that of the NUL. */
    method StrChr(c: char) returns (pos: nat)
      requires Valid() && c != NUL
      ensures start <= pos <= end && pos == start + IndexOf(Line(), c)
      ensures ibuf[pos] == c <==> pos < end
    {
      pos := start;
      ghost var s := Line();
      while ibuf[pos] != NUL && ibuf[pos] != c
        invariant start <= pos <= end && c !in s[..pos-start]
        decreases end - pos
      {
        assert s[..pos-start+1] == s[..pos-start] + [s[pos-start]];
        pos := pos + 1;
      }
      FirstIndex(s, c, pos - start);
    }

    /** A NUL in the middle of the string. */
    method PutNul(pos: nat)
      requires Valid() && start <= pos < end
      modifies ibuf
      ensures ibuf[pos] == NUL && ibuf[end] == NUL && forall i :: start <= i < end && i != pos ==> ibuf[i] != NUL
      ensures ibuf[start..pos] == old(ibuf[start..pos]) && ibuf[pos+1..end] == old(ibuf[pos+1..end])
      ensures old(ibuf[start..pos]) == old(Line())[..pos-start] && old(ibuf[pos+1..end]) == old(Line())[pos-start+1..]
    {
      ibuf[pos] := NUL;
    }

    /** RM_NEW_LINE */
    method RemoveNewLine()
      requires Valid()
      modifies this, ibuf
      ensures Valid() && ibuf == old(ibuf) && Line() == old(Line())[..IndexOf(old(Line()), '\n')]
    {
      var pos := StrChr('\n');
      if ibuf[pos] == '\n' {
        PutNul(pos);
        end := pos;
      } else {
        assert Line()[..pos-start] == Line();
      }
    }

    /** SET_IBUF_START */
    method Skip()
      requires Valid()
      modifies `start
      ensures Valid() && Line() == Rest(old(Line()))
    {
      var pos := StrChr(';');
      if ibuf[pos] == ';' { start := pos + 1; }
    }

    method SkipTimes(k: nat)
      requires Valid()
      modifies `start
      ensures Valid() && Line() == Rests(old(Line()), k)
    {
      ghost var s := Line();
      for j := 0 to k
        invariant Valid() && Rests(Line(), k - j) == Rests(s, k)
      {
        Skip();
      }
    }

    /** SET_CODE_LIB: the name up to the semicolon, which is overwritten by a NUL. */
    method TakeLib() returns (lib: Option<string>)
      requires Valid()
      modifies this, ibuf
      ensures Valid() && ibuf == old(ibuf) && Line() == Rest(old(Line())) && lib == LibOf(old(Line()))
    {
      ghost var s := Line();
      var pos := StrChr(';');
      var name := ibuf[start..pos];
      assert name == s[..pos-start];
      lib := if name == "exe" then None else Some(name);
      if ibuf[pos] == ';' {
        PutNul(pos);
        start := pos + 1;
      }
    }

    /** What a string function sees at the cursor. */
    method CString() returns (s: string)
      requires Valid()
      ensures s == Line()
    {
      var pos := start;
      while ibuf[pos] != NUL
        invariant start <= pos <= end
        decreases end - pos
      {
        pos := pos + 1;
      }
      s := ibuf[start..pos];
    }

    /** What follows "grow;" at the cursor; None if it is no growth rule. */
    method ReadGrow() returns (grow: Option<Grow>)
      requires Valid()
      modifies this, ibuf
      ensures Valid() && ibuf == old(ibuf) && grow == ScanGrow(old(Line()))
      ensures grow.Some? ==> Line() == Rest(Rests(old(Line()), 5))
    {
      var line := CString();
      var scanned := ScanRule(line);
      if scanned.None? { return None; }
      SkipTimes(5);
      var lib := TakeLib();
      var n := scanned.value;
      grow := Some(Grow(n.min, n.max, n.mul, n.add, n.code, n.stack, lib));
    }

    /** The numbers and the library of a constructor; None if it cannot be read. */
    method ReadEss() returns (ess: Option<Essentials>)
      requires Valid()
      modifies this, ibuf
      ensures Valid() && ibuf == old(ibuf) && ess == ScanEss(old(Line()))
      ensures ess.Some? ==> Line() == Rest(Rests(old(Line()), 3))
    {
      var line := CString();
      var scanned := ScanCtor(line);
      if scanned.None? { return None; }
      SkipTimes(3);
      var lib := TakeLib();
      var n := scanned.value;
      ess := Some(Essentials(n.size, n.code, n.stack, lib));
    }

    /** The growth rule of a constructor, if one follows. */
    method ReadGrown(ess: Essentials) returns (record: Option<Record>)
      requires Valid()
      modifies this, ibuf
      ensures Valid() && ibuf == old(ibuf)
      ensures ScanGrown(ess, old(Line())) == if record.None? then None else Some(Parsed(record.value, Line()))
    {
      var line := CString();
      if !(GROW <= line) { return Some(Record(ess, None)); }
      GrowSkipped(line);
      Skip();
      var grow := ReadGrow();
      return if grow.None? then None else Some(Record(ess, grow));
    }

    /** One turn of the loop over the constructors. */
    method ReadRecord() returns (record: Option<Record>)
      requires Valid()
      modifies this, ibuf
      ensures Valid() && ibuf == old(ibuf)
      ensures ScanRecord(old(Line())) == if record.None? then None else Some(Parsed(record.value, Line()))
    {
      var ess := ReadEss();
      if ess.None? { return None; }
      record := ReadGrown(ess.value);
    }

    method ReadRecords(num: nat) returns (records: Option<seq<Record>>)
      requires Valid()
      modifies this, ibuf
      ensures Valid() && ibuf == old(ibuf) && records == ScanRecords(old(Line()), num)
    {
      ghost var s := Line();
      var rs: seq<Record> := [];
      NothingRead(s, num, rs, num - 0);
      for i := 0 to num
        invariant Valid() && ibuf == old(ibuf)
        invariant ReadSoFar(s, num, rs, Line(), num - i)
      {
        ReadOneMore(s, num, rs, Line(), num - i);
        var record := ReadRecord();
        if record.None? { return None; }
        rs := rs + [record.value];
      }
      ReadAll(s, num, rs, Line());
      records := Some(rs);
    }

    /** memhack_init(): the whole configuration, or nothing. */
    method ReadConfig() returns (received: Option<Received>)
      requires Valid()
      modifies this, ibuf
      ensures received == Decode(old(Line()))
    {
      var line := CString();
      var num := Scan(line, 10);
      if num.None? || num.value.value == 0 { return None; }
      RemoveNewLine();
      Skip();
      var cmd := CString();
      var gbt := "gbt" <= cmd;
      if gbt { Skip(); }
      var records := ReadRecords(num.value.value);
      received := if records.None? then None else Some(Received(gbt, records.value));
    }
  }

  /** Records read so far in front of the ones still to come. */
  function Prefixed(rs: seq<Record>, rest: Option<seq<Record>>): Option<seq<Record>>
  {
    if rest.None? then None else Some(rs + rest.value)
  }

  /** Of num records at s, rs have been read and some more are at t. */
  ghost predicate ReadSoFar(s: string, num: nat, rs: seq<Record>, t: string, more: nat)
  {
    ScanRecords(s, num) == Prefixed(rs, ScanRecords(t, more))
  }

  lemma {:induction false} NothingRead(s: string, num: nat, rs: seq<Record>, more: nat)
    requires rs == [] && more == num
    ensures ReadSoFar(s, num, rs, s, more)
  {
    var rest := ScanRecords(s, num);
    if rest.Some? { assert rs + rest.value == rest.value; }
  }

  lemma {:induction false} ReadAll(s: string, num: nat, rs: seq<Record>, t: string)
    requires ReadSoFar(s, num, rs, t, 0)
    ensures ScanRecords(s, num) == Some(rs)
  {
    assert rs + [] == rs;
  }

  lemma {:induction false} ReadOneMore(s: string, num: nat, rs: seq<Record>, t: string, more: nat)
    requires more > 0 && ReadSoFar(s, num, rs, t, more)
    ensures ScanRecord(t).None? ==> ScanRecords(s, num) == None
    ensures ScanRecord(t).Some? ==>
      ReadSoFar(s, num, rs + [ScanRecord(t).value.record], ScanRecord(t).value.rest, more - 1)
  {
    if ScanRecord(t).Some? {
      var p := ScanRecord(t).value;
      var rest := ScanRecords(p.rest, more - 1);
      if rest.Some? { assert rs + [p.record] + rest.value == rs + ([p.record] + rest.value); }
    }
  }

  lemma {:induction false} FirstIndex(s: string, c: char, i: nat)
    requires i <= |s| && c !in s[..i] && (i < |s| ==> s[i] == c)
    ensures IndexOf(s, c) == i
  {
    if i > 0 {
      assert s[0] == s[..i][0];
      assert s[1..][..i-1] == s[..i][1..];
      FirstIndex(s[1..], c, i - 1);
    }
  }

  lemma {:induction false} GrowSkipped(s: string)
    requires GROW <= s
    ensures Rest(s) == s[5..]
  {
    assert s == "grow" + ";" + s[5..];
    RestBehind("grow", s[5..]);
  }
}
