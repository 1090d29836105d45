/**
 The loop over all lines of all files (DoReminders in src/main.c, with ReadLine,
 PopFile and IncludeFile of src/files.c).
 */
module Reader {
  import opened IfStack
  import opened Lines
  import opened Files

  class Reader {
    const ifs: IfTable
    var cLine: seq<Line>               // the lines of the current file that are still to be read
    var iStack: seq<IncludeStruct>
    var history: History

    ghost predicate Valid()
      reads this, ifs
    {
      ifs.Valid() && Ordered(iStack, ifs.basePointer) && |iStack| <= INCLUDE_NEST
    }

    ghost function Around(): (r: seq<Frame>)
      requires Valid()
      reads this, ifs, ifs.ifArray
      ensures |r| == |iStack|
    {
      Frames(ifs.Entries(), ifs.basePointer, iStack)
    }

    /** The history once everything is read. */
    ghost function AllRead(env: Env): History
      requires Valid()
      reads this, ifs, ifs.ifArray
    {
      Finish(env, ifs.State(), cLine, Around(), history)
    }

    constructor ()
      ensures Valid() && iStack == [] && cLine == [] && history == [] && ifs.State() == FileState(0, true, [], false)
      ensures fresh(ifs) && fresh(ifs.ifArray)
    {
      ifs := new IfTable();
      cLine, iStack, history := [], [], [];
    }

    /** The end of a file: on to the next file of a directory, or back to the including file as it was left. */
    method PopFile(ghost env: Env) returns (eof: bool)
      requires Valid() && cLine == [] && iStack != []
      modifies this`cLine, this`iStack, ifs`ifPointer, ifs`basePointer, ifs`returnEncountered
      ensures Valid()
      ensures eof ==> iStack == [] && history == old(AllRead(env))
      ensures !eof ==> iStack != [] && AllRead(env) == old(AllRead(env))
      ensures |old(iStack)| > 1 ==> !eof
      ensures history == old(history)
      ensures !eof && old(iStack[|iStack| - 1].chain) == [] ==> iStack == old(iStack[..|iStack| - 1])
      ensures !eof ==> Less(Sizes(iStack, cLine), old(Sizes(iStack, cLine)), |old(iStack)|) && |iStack| <= |old(iStack)|
      ensures !eof && old(iStack[|iStack| - 1].chain) == [] ==>
                var f := old(Around())[|old(iStack)| - 1]; ifs.State() == f.state && cLine == f.lines
    {
      hide Finish, Frames, Ordered, Sizes, Less;
      var n := |iStack|;
      var i := iStack[n - 1];
      ghost var entries, base, s0, frames := ifs.Entries(), ifs.basePointer, ifs.State(), Around();
      PopSizes(iStack);
      FramesTop(entries, base, iStack, i);
      assert iStack[..n - 1] + [i] == iStack;
      assert frames[..n - 1] + [frames[n - 1]] == frames;
      FinishPop(env, s0, frames[..n - 1], frames[n - 1], history);
      ifs.PopExcessIfs();
      assert ifs.Entries()[..base] == entries[..base];
      FramesBelow(entries, ifs.Entries(), base, iStack);
      if i.chain != [] {
        NextChainedFile();
        return false;
      }
      if n <= 1 {
        iStack := [];
        EmptyStack(ifs.basePointer);
        return true;
      }
      Resume();
      return false;
    }

    /** The next file of the same directory. */
    method NextChainedFile()
      requires Valid() && iStack != [] && iStack[|iStack| - 1].chain != []
      modifies this`cLine, this`iStack
      ensures Valid()
      ensures var n, i := |old(iStack)|, old(iStack[|iStack| - 1]);
              && iStack == old(iStack)[n - 1 := i.(chain := i.chain[1..])] && cLine == i.chain[0]
              && Around() == old(Around())[..n - 1] + [old(Around())[n - 1].(chain := i.chain[1..])]
    {
      hide Frames, Ordered;
      var n := |iStack|;
      var i := iStack[n - 1];
      var i' := i.(chain := i.chain[1..]);
      ghost var init := iStack[..n - 1];
      FramesTop(ifs.Entries(), ifs.basePointer, iStack, i);
      FramesTop(ifs.Entries(), ifs.basePointer, iStack, i');
      assert iStack == init + [i] && iStack[n - 1 := i'] == init + [i'];
      iStack := iStack[n - 1 := i'];
      cLine := i.chain[0];
    }

    /** Back to the file around this one, all of whose own IFs have been forgotten. */
    method Resume()
      requires Valid() && |iStack| > 1 && iStack[|iStack| - 1].chain == [] && ifs.ifPointer == ifs.basePointer
      requires !ifs.returnEncountered
      modifies this`cLine, this`iStack, ifs`basePointer
      ensures Valid() && iStack == old(iStack[..|iStack| - 1])
      ensures var f := old(Around())[|old(iStack)| - 1]; ifs.State() == f.state && cLine == f.lines
      ensures Around() == old(Around())[..|old(iStack)| - 1]
    {
      hide Frames, Ordered;
      var n := |iStack|;
      var i := iStack[n - 1];
      ghost var entries, base := ifs.Entries(), ifs.basePointer;
      FramesTop(entries, base, iStack, i);
      assert iStack == iStack[..n - 1] + [i];
      iStack := iStack[..n - 1];
      ifs.LeaveFile(i.baseIfPointer);
      cLine := i.cLine;
      CutBelow(entries, ifs.Entries(), base, i.baseIfPointer);
      FramesBelow(entries, ifs.Entries(), i.baseIfPointer, iStack);
    }

    method ReadLine(ghost env: Env) returns (eof: bool, line: Line)
      requires Valid() && iStack != []
      modifies this`cLine, this`iStack, ifs`ifPointer, ifs`basePointer, ifs`returnEncountered
      ensures Valid()
      ensures eof ==> iStack == [] && history == old(AllRead(env))
      ensures !eof ==> iStack != [] && Finish(env, ifs.State(), [line] + cLine, Around(), history) == old(AllRead(env))
      ensures !eof ==> Less(Sizes(iStack, cLine), old(Sizes(iStack, cLine)), |iStack|)
    {
      hide Finish, Frames, Sizes, Less;
      ghost var s0 := Sizes(iStack, cLine);
      while cLine == []
        invariant Valid() && iStack != [] && AllRead(env) == old(AllRead(env)) && history == old(history)
        invariant Sizes(iStack, cLine) == s0 || Less(Sizes(iStack, cLine), s0, 9)
        decreases Sizes(iStack, cLine)[0], Sizes(iStack, cLine)[1], Sizes(iStack, cLine)[2], Sizes(iStack, cLine)[3],
          Sizes(iStack, cLine)[4], Sizes(iStack, cLine)[5], Sizes(iStack, cLine)[6], Sizes(iStack, cLine)[7],
              Sizes(iStack, cLine)[8]
      {
        ghost var s1, n := Sizes(iStack, cLine), |iStack|;
        eof := PopFile(env);
        if eof {
          return true, Endif;
        }
        ghost var s2 := Sizes(iStack, cLine);
        LessIsLess(s2, s1, n);
        LessFrom(s2, s1, s0, n, iStack, cLine);
      }
      line := cLine[0];
      ghost var s3 := Sizes(iStack, cLine);
      LineSizes(iStack, cLine);
      assert [cLine[0]] + cLine[1..] == cLine;
      cLine := cLine[1..];
      LessFrom(Sizes(iStack, cLine), s3, s0, |iStack|, iStack, cLine);
      return false, line;
    }

    /** Enter a file, or the first of the files of a directory. */
    method IncludeFile(env: Env, id: nat)
      requires Valid() && iStack != [] && !Ignoring(ifs.State())
      modifies this`cLine, this`iStack, this`history, ifs`ifPointer, ifs`basePointer, ifs`returnEncountered
      ensures Valid() && |old(iStack)| <= |iStack|
      ensures AllRead(env) == Finish(env, old(ifs.State()), [Include(id)] + old(cLine), old(Around()), old(history))
      ensures Sizes(iStack, cLine)[..|old(iStack)|] == old(Sizes(iStack, cLine))[..|old(iStack)|]
      ensures var chain := env.target(old(history), id);
              if |old(iStack)| >= INCLUDE_NEST || chain == [] then
                && iStack == old(iStack) && cLine == old(cLine) && ifs.State() == old(ifs.State())
                && history == old(history) + [if |old(iStack)| >= INCLUDE_NEST then TooDeep(id) else Included(id)]
              else
                && |iStack| == |old(iStack)| + 1 && cLine == chain[0] && ifs.State() == Inner(old(ifs.State()))
                && Around() == old(Around()) + [Frame(old(ifs.State()), old(cLine), chain[1..])]
                && history == old(history) + [Included(id)]
    {
      hide Finish, Frames, Ordered, Sizes, Ignoring, RunChain;
      ghost var frames, s0, lines, entries := Around(), ifs.State(), [Include(id)] + cLine, ifs.Entries();
      assert lines[0] == Include(id) && lines[1..] == cLine;
      if |iStack| >= INCLUDE_NEST {
        FinishStep(env, s0, lines, frames, history);
        history := history + [TooDeep(id)];
        return;
      }
      var chain := env.target(history, id);
      FinishInclude(env, s0, lines, frames, history);
      history := history + [Included(id)];
      var i := IncludeStruct(ifs.basePointer, cLine, []);
      var i' := if chain == [] then i else i.(chain := chain[1..]);
      Running(s0);
      FramesPush(entries, s0, iStack, i');
      SizesPush(iStack, cLine, i, chain);
      ghost var f := Frame(s0, cLine, chain);
      ifs.EnterFile();
      iStack := iStack + [i'];
      if chain == [] {
        FinishPop(env, Inner(s0), frames, f, history);
        cLine := [];
        assert iStack[..|iStack| - 1] == old(iStack);
        var eof := PopFile(env);
      } else {
        FinishChain(env, Inner(s0), f, frames, history);
        cLine := chain[0];
      }
    }

    /** Any other line. */
    method DoLine(env: Env, line: Line)
      requires Valid() && !line.Include?
      modifies this`history, ifs, ifs.ifArray
      ensures Valid() && ifs.SameBelow() && (ifs.State(), history)
              == LineStep(env, old(ifs.State()), old(history), line)
    {
      hide Ordered;
      match line
      case Plain(id) =>
        var ignore := ifs.ShouldIgnoreLine();
        if !ignore {
          history := history + [Ran(id)];
        }
      case Return =>
        var ignore := ifs.ShouldIgnoreLine();
        if !ignore {
          ifs.DoReturn();
        }
      case Set(id) =>
        var ignore := ifs.ShouldIgnoreLine();
        var constant := ifs.InConstantContext();
        history := history + [SetSeen(id, ignore, constant)];
      case If(id) => DoIf(env, id);
      case IfTrig(id) => DoIfTrig(env, id);
      case Else =>
        var r := ifs.EncounterElse();
        if r != OK {
          history := history + [Failed(r)];
        }
      case Endif =>
        var r := ifs.EncounterEndif();
        if r != OK {
          history := history + [Failed(r)];
        }
    }

    method DoIf(env: Env, id: nat)
      requires Valid()
      modifies this`history, ifs`ifPointer, ifs.ifArray
      ensures Valid() && ifs.SameBelow() && (ifs.State(), history) == IfStep(env, old(ifs.State()), old(history), id)
    {
      hide Ordered;
      var full := ifs.IfStackFull();
      if full != OK {
        history := history + [Failed(full)];
        return;
      }
      var ignore := ifs.ShouldIgnoreLine();
      var pushed;
      if ignore {
        pushed := ifs.PushIf(true, true);
      } else {
        var v := env.cond(history, id);
        history := history + [Tested(id)];
        match v
        case Erroneous => pushed := ifs.PushIf(true, false);
        case Known(truth, constant) => pushed := ifs.PushIf(truth, constant);
      }
    }

    method DoIfTrig(env: Env, id: nat)
      requires Valid()
      modifies this`history, ifs`ifPointer, ifs.ifArray
      ensures Valid() && ifs.SameBelow() && (ifs.State(), history)
              == IfTrigStep(env, old(ifs.State()), old(history), id)
    {
      hide Ordered;
      var full := ifs.IfStackFull();
      if full != OK {
        history := history + [Failed(full)];
        return;
      }
      var ignore := ifs.ShouldIgnoreLine();
      var pushed;
      if ignore {
        pushed := ifs.PushIf(true, false);
      } else {
        var v := env.trig(history, id);
        if v == Unparsable {
          history := history + [BadIfTrig(id)];
          return;
        }
        history := history + [TestedTrig(id)];
        pushed := ifs.PushIf(v == Triggers, false);
      }
    }

    /** Every line of every file is met as the definition of RunChain says, and then all has been read. */
    method DoReminders(env: Env, initial: Chain)
      requires Valid() && iStack == [] && cLine == [] && history == [] && initial != []
      requires ifs.State() == FileState(0, true, [], false)
      modifies this, ifs, ifs.ifArray
      ensures history == RunChain(env, FileState(0, true, [], false), [], initial, 1)
    {
      hide Finish, Frames, Ordered, Sizes, Less, Ignoring, RunChain, LineStep, RunLines;
      var i := IncludeStruct(0, [], initial[1..]);
      PushOrdered([], i, 0);
      ghost var final := RunChain(env, FileState(0, true, [], false), [], initial, 1);
      FinishAll(env, FileState(0, true, [], false), ifs.Entries(), i, initial);
      iStack, cLine := [i], initial[0];
      while true
        invariant Valid() && iStack != [] && AllRead(env) == final
        decreases Sizes(iStack, cLine)[0], Sizes(iStack, cLine)[1], Sizes(iStack, cLine)[2], Sizes(iStack, cLine)[3],
          Sizes(iStack, cLine)[4], Sizes(iStack, cLine)[5], Sizes(iStack, cLine)[6], Sizes(iStack, cLine)[7],
              Sizes(iStack, cLine)[8]
      {
        ghost var s0 := Sizes(iStack, cLine);
        var eof, line := ReadLine(env);
        if eof {
          return;
        }
        ghost var s1, n := Sizes(iStack, cLine), |iStack|;
        LessIsLess(s1, s0, n);
        FinishStep(env, ifs.State(), [line] + cLine, Around(), history);
        assert ([line] + cLine)[1..] == cLine;
        if line.Include? {
          var ignore := ifs.ShouldIgnoreLine();
          if !ignore {
            IncludeFile(env, line.id);
            LessBelow(Sizes(iStack, cLine), s1, s0, n);
            LessIsLess(Sizes(iStack, cLine), s0, n);
          }
        } else {
          ghost var entries, base := ifs.Entries(), ifs.basePointer;
          DoLine(env, line);
          FramesBelow(entries, ifs.Entries(), base, iStack);
        }
      }
    }
  }
}
