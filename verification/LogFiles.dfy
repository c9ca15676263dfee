/** The files behind the asynchronous log: one current file, rolled by size to a name with
    a time stamp. What the file system answers comes in as inputs. */
module LogFiles {

  datatype File = File(name: string, lines: seq<string>)

  /** What a roll meets: the stamp of the second it happens in, whether the rename
      succeeds, and whether the log file can be opened again. */
  datatype Roll = Roll(stamp: string, renamed: bool, reopened: bool)

  /** `rolled` are the files renamed so far that still exist, oldest first; `current` is
      the file under the plain name; `onStderr` is what was written after an open failed.
      `bytes` is the counter that decides about rolling, and `closes[i]` says how often
      the i-th stream that was opened has been closed. */
  datatype Out = Out(rolled: seq<File>, current: seq<string>, onStderr: seq<string>,
                     toFile: bool, bytes: nat, closes: seq<nat>)

  // ---- one line ----

  function Without(files: seq<File>, name: string): seq<File> {
    if files == [] then []
    else (if files[0].name == name then [] else [files[0]]) + Without(files[1..], name)
  }

  /** `start`: the file is opened for appending to what it holds, or everything goes to
      stderr. */
  function Opened(existing: seq<string>, archive: seq<File>, canOpen: bool): Out {
    Out(archive, existing, [], canOpen, 0, if canOpen then [0] else [])
  }

  /** A rename replaces any file of the new name. */
  function Renamed(o: Out, stamp: string): Out {
    o.(rolled := Without(o.rolled, stamp) + [File(stamp, o.current)], current := [])
  }

  /** The stream is closed before the rename and, being still set, once more before the
      file is opened again. The model goes on as if the second close did nothing. */
  function ClosedTwice(closes: seq<nat>): seq<nat> {
    if closes == [] then [] else closes[|closes| - 1 := closes[|closes| - 1] + 2]
  }

  /** `roll_file`: neither a failing rename nor a failing open stops it. */
  function Rolled(o: Out, r: Roll): Out {
    if !o.toFile then o
    else
      var moved := if r.renamed then Renamed(o, r.stamp) else o;
      if r.reopened then moved.(closes := ClosedTwice(o.closes) + [0], bytes := 0)
      else moved.(closes := ClosedTwice(o.closes), toFile := false)
  }

  function Put(o: Out, line: string): Out {
    if o.toFile then o.(current := o.current + [line], bytes := o.bytes + |line| + 1)
    else o.(onStderr := o.onStderr + [line], bytes := o.bytes + |line| + 1)
  }

  predicate MustRoll(bytes: nat, line: string, rollSize: nat) {
    rollSize > 0 && bytes + |line| > rollSize
  }

  function Logged(o: Out, line: string, rollSize: nat, r: Roll): Out {
    Put(if MustRoll(o.bytes, line, rollSize) then Rolled(o, r) else o, line)
  }

  /** `rolls[i]` is what a roll would meet at line i. */
  function LoggedAll(o: Out, lines: seq<string>, rollSize: nat, rolls: seq<Roll>): Out
    requires |lines| == |rolls|
    decreases |lines|
  {
    if lines == [] then o
    else LoggedAll(Logged(o, lines[0], rollSize, rolls[0]), lines[1..], rollSize, rolls[1..])
  }

  lemma {:induction false} LoggedAllAppend(o: Out, a: seq<string>, b: seq<string>, rollSize: nat,
                                           ra: seq<Roll>, rb: seq<Roll>)
    requires |a| == |ra| && |b| == |rb|
    ensures LoggedAll(o, a + b, rollSize, ra + rb) == LoggedAll(LoggedAll(o, a, rollSize, ra), b, rollSize, rb)
    decreases |a|
  {
    hide Logged;
    if a == [] {
      assert a + b == b && ra + rb == rb;
    } else {
      assert (a + b)[1..] == a[1..] + b && (ra + rb)[1..] == ra[1..] + rb;
      LoggedAllAppend(Logged(o, a[0], rollSize, ra[0]), a[1..], b, rollSize, ra[1..], rb);
    }
  }

  // ---- which lines are on disk ----

  function AllLines(files: seq<File>): seq<string> {
    if files == [] then [] else files[0].lines + AllLines(files[1..])
  }

  /** Everything that can be read back, in order of writing. */
  function Lines(o: Out): seq<string> {
    AllLines(o.rolled) + o.current + o.onStderr
  }

  /** The names of rolled files that hold something. */
  function Taken(files: seq<File>): set<string> {
    if files == [] then {}
    else (if files[0].lines == [] then {} else {files[0].name}) + Taken(files[1..])
  }

  predicate Sound(o: Out) {
    o.toFile ==> o.onStderr == [] && o.closes != []
  }

  lemma FirstFile(f: File, rest: seq<File>)
    ensures AllLines([f] + rest) == f.lines + AllLines(rest)
    ensures Taken([f] + rest) == (if f.lines == [] then {} else {f.name}) + Taken(rest)
  {
    assert ([f] + rest)[1..] == rest;
  }

  lemma WithoutFirst(files: seq<File>, name: string)
    requires files != []
    ensures var left := Without(files[1..], name);
            Without(files, name) == if files[0].name == name then left else [files[0]] + left
  {
  }

  lemma {:induction false} WithoutNames(files: seq<File>, name: string)
    ensures Taken(Without(files, name)) == Taken(files) - {name}
    decreases |files|
  {
    hide Without, Taken;
    if files == [] {
      NoFiles(name);
    } else {
      WithoutNames(files[1..], name);
      WithoutFirst(files, name);
      assert files == [files[0]] + files[1..];
      FirstFile(files[0], files[1..]);
      FirstFile(files[0], Without(files[1..], name));
    }
  }

  lemma NoFiles(name: string)
    ensures Without([], name) == [] && Taken([]) == {} && AllLines([]) == []
  {
  }

  lemma {:induction false} WithoutLines(files: seq<File>, name: string)
    ensures name !in Taken(files) ==> AllLines(Without(files, name)) == AllLines(files)
    ensures name in Taken(files) ==> |AllLines(Without(files, name))| < |AllLines(files)|
    decreases |files|
  {
    hide Without, Taken, AllLines;
    if files == [] {
      NoFiles(name);
    } else {
      WithoutLines(files[1..], name);
      WithoutFirst(files, name);
      assert files == [files[0]] + files[1..];
      FirstFile(files[0], files[1..]);
      FirstFile(files[0], Without(files[1..], name));
    }
  }

  lemma {:induction false} OneMoreFile(files: seq<File>, f: File)
    ensures AllLines(files + [f]) == AllLines(files) + f.lines
    ensures Taken(files + [f]) == Taken(files) + (if f.lines == [] then {} else {f.name})
    decreases |files|
  {
    if files == [] {
      assert files + [f] == [f] && [f][1..] == [];
      assert f.lines + [] == f.lines;
    } else {
      assert (files + [f])[1..] == files[1..] + [f];
      OneMoreFile(files[1..], f);
      assert files[0].lines + (AllLines(files[1..]) + f.lines) == files[0].lines + AllLines(files[1..]) + f.lines;
    }
  }

  lemma RenamedLines(o: Out, stamp: string)
    ensures var d := Renamed(o, stamp);
            && (stamp !in Taken(o.rolled) ==> Lines(d) == Lines(o))
            && (stamp in Taken(o.rolled) ==> |Lines(d)| < |Lines(o)|)
            && Taken(d.rolled) == (Taken(o.rolled) - {stamp}) + if o.current == [] then {} else {stamp}
  {
    WithoutNames(o.rolled, stamp);
    WithoutLines(o.rolled, stamp);
    OneMoreFile(Without(o.rolled, stamp), File(stamp, o.current));
  }

  lemma PutLines(o: Out, line: string)
    requires Sound(o)
    ensures Sound(Put(o, line)) && Lines(Put(o, line)) == Lines(o) + [line]
  {
    var p := Put(o, line);
    if o.toFile {
      assert AllLines(o.rolled) + (o.current + [line]) + [] == AllLines(o.rolled) + o.current + [] + [line];
    }
  }

  /** A roll to a name that is already taken by lines. */
  predicate Clashes(o: Out, line: string, rollSize: nat, r: Roll) {
    o.toFile && MustRoll(o.bytes, line, rollSize) && r.renamed && r.stamp in Taken(o.rolled)
  }

  /** One line is added; lines are lost exactly when the roll clashes. */
  lemma LoggedLines(o: Out, line: string, rollSize: nat, r: Roll)
    requires Sound(o)
    ensures var p := Logged(o, line, rollSize, r);
            && Sound(p)
            && (if Clashes(o, line, rollSize, r) then |Lines(p)| <= |Lines(o)| else Lines(p) == Lines(o) + [line])
  {
    hide Lines, Taken;
    var rolled := if MustRoll(o.bytes, line, rollSize) then Rolled(o, r) else o;
    assert |Lines(rolled)| < |Lines(o)| <==> Clashes(o, line, rollSize, r) by { RolledLines(o, r); }
    assert !Clashes(o, line, rollSize, r) ==> Lines(rolled) == Lines(o) by { RolledLines(o, r); }
    PutLines(rolled, line);
  }

  lemma RolledLines(o: Out, r: Roll)
    requires Sound(o)
    ensures Sound(Rolled(o, r))
    ensures var clash := o.toFile && r.renamed && r.stamp in Taken(o.rolled);
            if clash then |Lines(Rolled(o, r))| < |Lines(o)| else Lines(Rolled(o, r)) == Lines(o)
  {
    if o.toFile && r.renamed {
      RenamedLines(o, r.stamp);
    }
  }

  lemma {:induction false} NeverMore(o: Out, lines: seq<string>, rollSize: nat, rolls: seq<Roll>)
    requires Sound(o) && |lines| == |rolls|
    ensures |Lines(LoggedAll(o, lines, rollSize, rolls))| <= |Lines(o)| + |lines|
    decreases |lines|
  {
    hide Lines, Logged, Sound;
    if lines != [] {
      LoggedLines(o, lines[0], rollSize, rolls[0]);
      NeverMore(Logged(o, lines[0], rollSize, rolls[0]), lines[1..], rollSize, rolls[1..]);
    }
  }

  /** From the names in use, the sizes of the lines and what the rolls meet: no roll takes
      a name under which lines lie. `empty` says that the current file holds nothing. */
  predicate NamesFree(taken: set<string>, empty: bool, bytes: nat, lines: seq<string>, rollSize: nat, rolls: seq<Roll>)
    requires |lines| == |rolls|
    decreases |lines|
  {
    lines == [] ||
    var line, r := lines[0], rolls[0];
    if !(0 < rollSize < bytes + |line|) then
      NamesFree(taken, false, bytes + |line| + 1, lines[1..], rollSize, rolls[1..])
    else
      && (r.renamed ==> r.stamp !in taken)
      && (r.reopened ==>
            NamesFree(if r.renamed && !empty then taken + {r.stamp} else taken, false, |line| + 1,
                      lines[1..], rollSize, rolls[1..]))
  }

  lemma {:induction false} StderrKeeps(o: Out, lines: seq<string>, rollSize: nat, rolls: seq<Roll>)
    requires !o.toFile && |lines| == |rolls|
    ensures Lines(LoggedAll(o, lines, rollSize, rolls)) == Lines(o) + lines
    decreases |lines|
  {
    if lines == [] {
      assert Lines(o) + lines == Lines(o);
    } else {
      PutLines(o, lines[0]);
      StderrKeeps(Put(o, lines[0]), lines[1..], rollSize, rolls[1..]);
      assert Lines(o) + [lines[0]] + lines[1..] == Lines(o) + lines;
    }
  }

  /** Rolling loses no line, and keeps them in order, if and only if no roll takes a name
      under which lines lie. */
  lemma {:induction false} LinesKeptIff(o: Out, lines: seq<string>, rollSize: nat, rolls: seq<Roll>)
    requires Sound(o) && |lines| == |rolls|
    ensures Lines(LoggedAll(o, lines, rollSize, rolls)) == Lines(o) + lines
       <==> !o.toFile || NamesFree(Taken(o.rolled), o.current == [], o.bytes, lines, rollSize, rolls)
    decreases |lines|
  {
    hide Lines, Sound, Taken;
    if !o.toFile {
      StderrKeeps(o, lines, rollSize, rolls);
    } else if lines == [] {
      assert Lines(o) + lines == Lines(o);
    } else {
      var line, r := lines[0], rolls[0];
      var p := Logged(o, line, rollSize, r);
      LoggedLines(o, line, rollSize, r);
      NeverMore(p, lines[1..], rollSize, rolls[1..]);
      LinesKeptIff(p, lines[1..], rollSize, rolls[1..]);
      assert Lines(o) + [line] + lines[1..] == Lines(o) + lines;
      if !Clashes(o, line, rollSize, r) {
        LoggedNames(o, line, rollSize, r);
      }
    }
  }

  lemma LoggedNames(o: Out, line: string, rollSize: nat, r: Roll)
    requires o.toFile && !Clashes(o, line, rollSize, r)
    ensures var p := Logged(o, line, rollSize, r);
            && (MustRoll(o.bytes, line, rollSize) && !r.reopened ==> !p.toFile)
            && (!MustRoll(o.bytes, line, rollSize) || r.reopened ==>
                  && p.toFile && p.current != []
                  && p.bytes == (if MustRoll(o.bytes, line, rollSize) then 0 else o.bytes) + |line| + 1
                  && Taken(p.rolled) ==
                       if MustRoll(o.bytes, line, rollSize) && r.renamed && o.current != []
                       then Taken(o.rolled) + {r.stamp} else Taken(o.rolled))
  {
    hide Taken;
    RenamedLines(o, r.stamp);
    assert r.stamp !in Taken(o.rolled) ==> (Taken(o.rolled) - {r.stamp}) + {} == Taken(o.rolled);
  }

  predicate DistinctStamps(rolls: seq<Roll>) {
    forall i, j :: 0 <= i < j < |rolls| ==> rolls[i].stamp != rolls[j].stamp
  }

  /** In particular when every roll falls into a second of its own. */
  lemma {:induction false} DistinctStampsKeep(taken: set<string>, empty: bool, bytes: nat, lines: seq<string>,
                                              rollSize: nat, rolls: seq<Roll>)
    requires |lines| == |rolls| && DistinctStamps(rolls)
    requires forall i :: 0 <= i < |rolls| ==> rolls[i].stamp !in taken
    ensures NamesFree(taken, empty, bytes, lines, rollSize, rolls)
    decreases |lines|
  {
    if lines != [] {
      var line, r := lines[0], rolls[0];
      if !MustRoll(bytes, line, rollSize) {
        DistinctStampsKeep(taken, false, bytes + |line| + 1, lines[1..], rollSize, rolls[1..]);
      } else if r.reopened {
        var taken' := if r.renamed && !empty then taken + {r.stamp} else taken;
        DistinctStampsKeep(taken', false, |line| + 1, lines[1..], rollSize, rolls[1..]);
      }
    }
  }

  lemma Three(o: Out, a: string, b: string, c: string, rollSize: nat, r: Roll)
    ensures LoggedAll(o, [a, b, c], rollSize, [r, r, r])
         == Logged(Logged(Logged(o, a, rollSize, r), b, rollSize, r), c, rollSize, r)
  {
    hide Logged;
    assert [a, b, c][1..] == [b, c] && [b, c][1..] == [c] && [c][1..] == [];
    assert [r, r, r][1..] == [r, r] && [r, r][1..] == [r] && [r][1..] == [];
    var x := Logged(o, a, rollSize, r);
    var y := Logged(x, b, rollSize, r);
    assert LoggedAll(o, [a, b, c], rollSize, [r, r, r]) == LoggedAll(x, [b, c], rollSize, [r, r]);
    assert LoggedAll(x, [b, c], rollSize, [r, r]) == LoggedAll(y, [c], rollSize, [r]);
    assert LoggedAll(y, [c], rollSize, [r]) == LoggedAll(Logged(y, c, rollSize, r), [], rollSize, []);
  }

  lemma RollsTo(o: Out, line: string, r: Roll)
    requires o.toFile && o.bytes > 0 && |line| == 1 && r.renamed && r.reopened
    requires o.rolled == [] || o.rolled == [File(r.stamp, o.rolled[0].lines)]
    ensures var p := Logged(o, line, 1, r);
            && p.rolled == [File(r.stamp, o.current)] && p.current == [line] && p.onStderr == o.onStderr
            && p.toFile && p.bytes == 2
  {
    assert Without(o.rolled, r.stamp) == [];
    assert [] + [line] == [line];
  }

  /** Two rolls within one second: the first rolled file is gone. */
  lemma TwoRollsOneStamp(r: Roll)
    requires r.renamed && r.reopened
    ensures Lines(LoggedAll(Opened([], [], true), ["a", "b", "c"], 1, [r, r, r])) == ["b", "c"]
  {
    var o := Opened([], [], true);
    var a := Logged(o, "a", 1, r);
    assert a == Out([], ["a"], [], true, 2, [0]);
    Three(o, "a", "b", "c", 1, r);
    hide Logged;
    RollsTo(a, "b", r);
    var b := Logged(a, "b", 1, r);
    RollsTo(b, "c", r);
    var c := Logged(b, "c", 1, r);
    assert AllLines(c.rolled) == ["b"] + AllLines([]);
  }

  // ---- how large the files get ----

  function Bytes(lines: seq<string>): nat {
    if lines == [] then 0 else Bytes(lines[..|lines| - 1]) + |lines[|lines| - 1]| + 1
  }

  lemma BytesOneMore(lines: seq<string>, line: string)
    ensures Bytes(lines + [line]) == Bytes(lines) + |line| + 1
  {
    assert (lines + [line])[..|lines|] == lines;
  }

  predicate Bounded(o: Out, rollSize: nat) {
    && Bytes(o.current) <= rollSize + 1
    && forall f :: f in o.rolled ==> Bytes(f.lines) <= rollSize + 1
  }

  /** At every point of the way. */
  predicate AlwaysBounded(o: Out, lines: seq<string>, rollSize: nat, rolls: seq<Roll>)
    requires |lines| == |rolls|
    decreases |lines|
  {
    && Bounded(o, rollSize)
    && (lines != [] ==> AlwaysBounded(Logged(o, lines[0], rollSize, rolls[0]), lines[1..], rollSize, rolls[1..]))
  }

  /** The counter may miss what is in the file, but never counts more than that. */
  predicate NeverAhead(o: Out) {
    o.toFile ==> o.bytes <= Bytes(o.current)
  }

  lemma {:induction false} NeverAheadKept(o: Out, lines: seq<string>, rollSize: nat, rolls: seq<Roll>)
    requires NeverAhead(o) && |lines| == |rolls|
    ensures NeverAhead(LoggedAll(o, lines, rollSize, rolls))
    decreases |lines|
  {
    if lines != [] {
      var rolled := if MustRoll(o.bytes, lines[0], rollSize) then Rolled(o, rolls[0]) else o;
      BytesOneMore(rolled.current, lines[0]);
      NeverAheadKept(Logged(o, lines[0], rollSize, rolls[0]), lines[1..], rollSize, rolls[1..]);
    }
  }

  /** From the bytes that the counter misses, the sizes of the lines and what the rolls
      meet: a line that does not roll finds room for itself and all that is in the file,
      and a roll that opens the file again has renamed it, for a line that fits. */
  predicate Stays(hidden: nat, bytes: nat, lines: seq<string>, rollSize: nat, rolls: seq<Roll>)
    requires |lines| == |rolls|
    decreases |lines|
  {
    lines == [] ||
    var line, r := lines[0], rolls[0];
    if !(0 < rollSize < bytes + |line|) then
      hidden + bytes + |line| <= rollSize && Stays(hidden, bytes + |line| + 1, lines[1..], rollSize, rolls[1..])
    else
      r.reopened ==> r.renamed && |line| <= rollSize && Stays(0, |line| + 1, lines[1..], rollSize, rolls[1..])
  }

  lemma {:induction false} StderrBounded(o: Out, lines: seq<string>, rollSize: nat, rolls: seq<Roll>)
    requires !o.toFile && Bounded(o, rollSize) && |lines| == |rolls|
    ensures AlwaysBounded(o, lines, rollSize, rolls)
    decreases |lines|
  {
    if lines != [] {
      StderrBounded(Put(o, lines[0]), lines[1..], rollSize, rolls[1..]);
    }
  }

  lemma {:induction false} WithoutIn(files: seq<File>, name: string)
    ensures forall f :: f in Without(files, name) ==> f in files
    decreases |files|
  {
    if files != [] {
      WithoutIn(files[1..], name);
    }
  }

  lemma RenamedBounded(o: Out, stamp: string, rollSize: nat)
    requires Bounded(o, rollSize)
    ensures Bounded(Renamed(o, stamp), rollSize)
  {
    WithoutIn(o.rolled, stamp);
  }

  lemma PutBounded(o: Out, line: string, rollSize: nat)
    requires o.toFile && Bounded(o, rollSize)
    ensures Bounded(Put(o, line), rollSize) <==> Bytes(o.current) + |line| <= rollSize
    ensures Bytes(Put(o, line).current) == Bytes(o.current) + |line| + 1
  {
    BytesOneMore(o.current, line);
  }

  lemma LoggedBounded(o: Out, line: string, rollSize: nat, r: Roll)
    requires o.toFile && NeverAhead(o) && Bounded(o, rollSize)
    ensures var p, hidden := Logged(o, line, rollSize, r), Bytes(o.current) - o.bytes;
            if !MustRoll(o.bytes, line, rollSize) then
              && (Bounded(p, rollSize) <==> hidden + o.bytes + |line| <= rollSize)
              && p.toFile && p.bytes == o.bytes + |line| + 1 && Bytes(p.current) == hidden + p.bytes
            else if !r.reopened then !p.toFile && Bounded(p, rollSize)
            else
              && (Bounded(p, rollSize) <==> r.renamed && |line| <= rollSize)
              && p.toFile && p.bytes == |line| + 1 && (r.renamed ==> Bytes(p.current) == p.bytes)
  {
    RenamedBounded(o, r.stamp, rollSize);
    var rolled := if MustRoll(o.bytes, line, rollSize) then Rolled(o, r) else o;
    if rolled.toFile {
      PutBounded(rolled, line, rollSize);
    }
  }

  /** No file ever gets more than the roll size and one newline if and only if none had
      more to begin with, every line that does not roll finds room behind what the file
      held before the log was started, and every roll that opens the file again has
      renamed it, for a line that fits. */
  lemma {:induction false} AlwaysBoundedIff(o: Out, lines: seq<string>, rollSize: nat, rolls: seq<Roll>)
    requires NeverAhead(o) && |lines| == |rolls|
    ensures AlwaysBounded(o, lines, rollSize, rolls) <==>
              Bounded(o, rollSize) &&
              (!o.toFile || Stays(Bytes(o.current) - o.bytes, o.bytes, lines, rollSize, rolls))
    decreases |lines|
  {
    hide Bounded, Logged, Bytes;
    if !o.toFile {
      if Bounded(o, rollSize) {
        StderrBounded(o, lines, rollSize, rolls);
      }
    } else if lines != [] && Bounded(o, rollSize) {
      var p := Logged(o, lines[0], rollSize, rolls[0]);
      LoggedBounded(o, lines[0], rollSize, rolls[0]);
      if !Bounded(p, rollSize) {
        assert !AlwaysBounded(p, lines[1..], rollSize, rolls[1..]);
      } else {
        AlwaysBoundedIff(p, lines[1..], rollSize, rolls[1..]);
      }
    }
  }

  /** Every roll that opens the file again has renamed it, for a line that fits. */
  predicate RenamesHold(bytes: nat, lines: seq<string>, rollSize: nat, rolls: seq<Roll>)
    requires |lines| == |rolls|
    decreases |lines|
  {
    lines == [] ||
    var line, r := lines[0], rolls[0];
    if !(0 < rollSize < bytes + |line|) then RenamesHold(bytes + |line| + 1, lines[1..], rollSize, rolls[1..])
    else r.reopened ==> r.renamed && |line| <= rollSize && RenamesHold(|line| + 1, lines[1..], rollSize, rolls[1..])
  }

  /** When the counter misses nothing, as on an empty file, the rolls alone decide. */
  lemma {:induction false} CountedStaysIff(bytes: nat, lines: seq<string>, rollSize: nat, rolls: seq<Roll>)
    requires rollSize > 0 && |lines| == |rolls|
    ensures Stays(0, bytes, lines, rollSize, rolls) <==> RenamesHold(bytes, lines, rollSize, rolls)
    decreases |lines|
  {
    if lines != [] {
      var line := lines[0];
      var next := if MustRoll(bytes, line, rollSize) then |line| + 1 else bytes + |line| + 1;
      CountedStaysIff(next, lines[1..], rollSize, rolls[1..]);
    }
  }

  /** A log started on a file with contents: lines that fit by themselves are written
      without a roll and take the file over the roll size. */
  lemma RestartOverflows(existing: seq<string>, archive: seq<File>, line: string, rollSize: nat, r: Roll)
    requires |line| <= rollSize < Bytes(existing) + |line|
    ensures var p := Logged(Opened(existing, archive, true), line, rollSize, r);
            p.rolled == archive && p.current == existing + [line] && !Bounded(p, rollSize)
  {
    BytesOneMore(existing, line);
  }

  lemma RestartInput(r: Roll)
    ensures var o := Opened(["a"], [], true); Bounded(o, 1) && !Bounded(Logged(o, "b", 1, r), 1)
  {
    BytesOneMore([], "a");
    assert [] + ["a"] == ["a"];
    RestartOverflows(["a"], [], "b", 1, r);
  }

  /** A rename that fails: the same file goes on, counted from zero. */
  lemma FailedRenameOverflows(o: Out, line: string, rollSize: nat, r: Roll)
    requires o.toFile && NeverAhead(o) && Bounded(o, rollSize)
    requires MustRoll(o.bytes, line, rollSize) && !r.renamed && r.reopened
    ensures var p := Logged(o, line, rollSize, r);
            p.current == o.current + [line] && p.bytes == |line| + 1 && !Bounded(p, rollSize)
  {
    LoggedBounded(o, line, rollSize, r);
  }

  // ---- when a roll happens, and what it does to the stream ----

  lemma {:induction false} BytesFirst(line: string, rest: seq<string>)
    ensures Bytes([line] + rest) == |line| + 1 + Bytes(rest)
    decreases |rest|
  {
    var all := [line] + rest;
    if rest == [] {
      assert all[..0] == [];
    } else {
      assert all[..|all| - 1] == [line] + rest[..|rest| - 1];
      BytesFirst(line, rest[..|rest| - 1]);
    }
  }

  /** The buffer does not fit into the current file. */
  predicate Overflows(o: Out, lines: seq<string>, rollSize: nat) {
    o.toFile && rollSize > 0 && lines != [] && o.bytes + Bytes(lines) > rollSize + 1
  }

  predicate ClosedOnce(o: Out) {
    forall i :: 0 <= i < |o.closes| ==> o.closes[i] <= 1
  }

  lemma {:induction false} ClosesStay(o: Out, lines: seq<string>, rollSize: nat, rolls: seq<Roll>, i: nat)
    requires |lines| == |rolls| && i < |o.closes|
    ensures var p := LoggedAll(o, lines, rollSize, rolls); i < |p.closes| && p.closes[i] >= o.closes[i]
    decreases |lines|
  {
    if lines != [] {
      ClosesStay(Logged(o, lines[0], rollSize, rolls[0]), lines[1..], rollSize, rolls[1..], i);
    }
  }

  /** A flush rolls, and closes a stream twice, if and only if the buffer does not fit into
      the current file. */
  lemma {:induction false} ClosedOnceIff(o: Out, lines: seq<string>, rollSize: nat, rolls: seq<Roll>)
    requires Sound(o) && ClosedOnce(o) && |lines| == |rolls|
    ensures ClosedOnce(LoggedAll(o, lines, rollSize, rolls)) <==> !Overflows(o, lines, rollSize)
    ensures !Overflows(o, lines, rollSize) ==>
              var p := LoggedAll(o, lines, rollSize, rolls); p.closes == o.closes && p.rolled == o.rolled
    decreases |lines|
  {
    if lines != [] {
      var line, rest := lines[0], lines[1..];
      var p := Logged(o, line, rollSize, rolls[0]);
      assert lines == [line] + rest;
      BytesFirst(line, rest);
      if o.toFile && MustRoll(o.bytes, line, rollSize) {
        var n := |o.closes| - 1;
        assert p.closes[n] >= 2;
        ClosesStay(p, rest, rollSize, rolls[1..], n);
      } else {
        ClosedOnceIff(p, rest, rollSize, rolls[1..]);
        if rest == [] {
          assert Bytes(rest) == 0;
        }
      }
    }
  }

  // ---- the object ----

  /** `flushed` and `met` record every line flushed since `start`, and what a roll there
      would have met. */
  class LogFile {
    var out: Out
    const rollSize: nat
    ghost const start: Out
    ghost var flushed: seq<string>
    ghost var met: seq<Roll>

    ghost predicate Valid()
      reads this
    {
      && Sound(start) && NeverAhead(start)
      && |flushed| == |met| && out == LoggedAll(start, flushed, rollSize, met)
    }

    constructor (rollSize: nat, existing: seq<string>, archive: seq<File>, canOpen: bool)
      ensures Valid() && flushed == [] && out == start == Opened(existing, archive, canOpen)
      ensures this.rollSize == rollSize
    {
      this.rollSize := rollSize;
      out, start := Opened(existing, archive, canOpen), Opened(existing, archive, canOpen);
      flushed, met := [], [];
    }

    lemma ReadBackIff()
      requires Valid()
      ensures Lines(out) == Lines(start) + flushed <==>
                !start.toFile ||
                NamesFree(Taken(start.rolled), start.current == [], start.bytes, flushed, rollSize, met)
    {
      LinesKeptIff(start, flushed, rollSize, met);
    }

    lemma StaysBoundedIff()
      requires Valid()
      ensures AlwaysBounded(start, flushed, rollSize, met) <==>
                Bounded(start, rollSize) &&
                (!start.toFile || Stays(Bytes(start.current) - start.bytes, start.bytes, flushed, rollSize, met))
    {
      AlwaysBoundedIff(start, flushed, rollSize, met);
    }

    method RollFile(r: Roll)
      modifies this`out
      ensures out == Rolled(old(out), r)
    {
      if !out.toFile {
        return;
      }
      var closes := ClosedTwice(out.closes);
      if r.renamed {
        out := Renamed(out, r.stamp);
      }
      if r.reopened {
        out := out.(closes := closes + [0], bytes := 0);
      } else {
        out := out.(closes := closes, toFile := false);
      }
    }

    method FlushBuf(buf: seq<string>, rolls: seq<Roll>)
      requires Valid() && |buf| == |rolls|
      modifies this
      ensures Valid() && flushed == old(flushed) + buf && met == old(met) + rolls
      ensures out == LoggedAll(old(out), buf, rollSize, rolls)
    {
      hide Logged;
      LoggedAllAppend(start, flushed, buf, rollSize, met, rolls);
      for i := 0 to |buf|
        invariant flushed == old(flushed) && met == old(met)
        invariant LoggedAll(out, buf[i..], rollSize, rolls[i..]) == LoggedAll(old(out), buf, rollSize, rolls)
      {
        assert buf[i..][1..] == buf[i + 1..] && rolls[i..][1..] == rolls[i + 1..];
        WriteLine(buf[i], rolls[i]);
      }
      flushed, met := flushed + buf, met + rolls;
    }

    method WriteLine(line: string, r: Roll)
      modifies this`out
      ensures out == Logged(old(out), line, rollSize, r)
    {
      if rollSize > 0 && out.bytes + |line| > rollSize {
        RollFile(r);
      }
      out := Put(out, line);
    }
  }
}
