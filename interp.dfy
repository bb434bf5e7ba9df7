/**
 * The interpreter proper: the table builder, the dispatcher that scans the
 * parse table, and the specification of what one command line does.
 */
module Interp {
  import opened Optional
  import opened CStrings
  import opened Commands
  import opened Handlers

  /** The dispatcher's test of one entry: strncmp of the line against the name, bounded by the stored length. */
  predicate Matches(e: Entry, line: string) {
    StrNEq(line, e.cmd, e.len)
  }

  /** With the length strlen gave it, an entry matches exactly the lines its name is a prefix of. */
  lemma MatchesIsPrefix(e: Entry, line: string)
    requires EntryOk(e) && IsCString(line)
    ensures Matches(e, line) <==> e.cmd <= line
  {
    StrNEqIsPrefix(line, e.cmd);
  }

  /** The handlers of every matching entry, in table order. */
  function Matching(t: seq<Entry>, line: string): seq<Handler>
    decreases |t|
  {
    if t == [] then []
    else
      var last := t[|t| - 1];
      Matching(t[..|t| - 1], line) + (if Matches(last, line) then [last.func] else [])
  }

  /** Scanning a table in two parts finds the matches of the first part, then those of the second. */
  lemma {:induction false} MatchingAppend(t1: seq<Entry>, t2: seq<Entry>, line: string)
    ensures Matching(t1 + t2, line) == Matching(t1, line) + Matching(t2, line)
    decreases |t2|
  {
    if t2 == [] {
      assert t1 + t2 == t1;
    } else {
      var t := t1 + t2;
      assert t[..|t| - 1] == t1 + t2[..|t2| - 1];
      MatchingAppend(t1, t2[..|t2| - 1], line);
    }
  }

  /** The scan finds a handler for each matching entry and for nothing else. */
  lemma {:induction false} MatchingExactly(t: seq<Entry>, line: string)
    ensures Matching(t, line) == [] <==> forall i :: 0 <= i < |t| ==> !Matches(t[i], line)
    ensures forall i :: 0 <= i < |t| && Matches(t[i], line) ==> t[i].func in Matching(t, line)
    ensures forall h :: h in Matching(t, line) ==> exists i :: 0 <= i < |t| && Matches(t[i], line) && t[i].func == h
    decreases |t|
  {
    if t != [] {
      var init, last := t[..|t| - 1], t[|t| - 1];
      MatchingExactly(init, line);
      assert forall i :: 0 <= i < |init| ==> init[i] == t[i];
      var tail := if Matches(last, line) then [last.func] else [];
      assert Matching(t, line) == Matching(init, line) + tail;
      assert forall h :: h in Matching(t, line) <==> h in Matching(init, line) || h in tail;
    }
  }

  /** The positions of the matching entries, in increasing order. */
  function MatchIndices(t: seq<Entry>, line: string): (m: seq<nat>)
    ensures forall k :: 0 <= k < |m| ==> m[k] < |t| && Matches(t[m[k]], line)
    ensures forall i :: 0 <= i < |t| && Matches(t[i], line) ==> i in m
    ensures forall k, l :: 0 <= k < l < |m| ==> m[k] < m[l]
    decreases |t|
  {
    if t == [] then []
    else
      var init := t[..|t| - 1];
      assert forall i :: 0 <= i < |init| ==> init[i] == t[i];
      MatchIndices(init, line) + (if Matches(t[|t| - 1], line) then [|t| - 1] else [])
  }

  /**
   * The scan yields one handler per matching position, in table order: two
   * matching entries with the same handler make it run twice.
   */
  lemma {:induction false} MatchingByIndex(t: seq<Entry>, line: string)
    ensures var m := MatchIndices(t, line);
      |Matching(t, line)| == |m| && forall k :: 0 <= k < |m| ==> Matching(t, line)[k] == t[m[k]].func
    decreases |t|
  {
    if t != [] {
      var init, last := t[..|t| - 1], t[|t| - 1];
      MatchingByIndex(init, line);
      var m0, h0 := MatchIndices(init, line), Matching(init, line);
      assert forall k :: 0 <= k < |m0| ==> t[m0[k]] == init[m0[k]];
      var tail, tailIdx := if Matches(last, line) then [last.func] else [], if Matches(last, line) then [|t| - 1] else [];
      assert Matching(t, line) == h0 + tail;
      assert MatchIndices(t, line) == m0 + tailIdx;
    }
  }

  /** What the handlers at positions m print, one after the other. */
  function PrintedAt(m: seq<nat>, t: seq<Entry>, line: string, memText: string): string
    requires forall k :: 0 <= k < |m| ==> m[k] < |t|
    decreases |m|
  {
    if m == [] then ""
    else PrintedAt(m[..|m| - 1], t, line, memText) + HandlerOutput(t[m[|m| - 1]].func, t, line, memText)
  }

  /** Running the handlers of positions m prints what those positions print. */
  lemma {:induction false} OutputsAt(hs: seq<Handler>, m: seq<nat>, t: seq<Entry>, line: string, memText: string)
    requires |hs| == |m| && forall k :: 0 <= k < |m| ==> m[k] < |t| && hs[k] == t[m[k]].func
    ensures Outputs(hs, t, line, memText) == PrintedAt(m, t, line, memText)
    decreases |m|
  {
    if m != [] {
      OutputsAt(hs[..|hs| - 1], m[..|m| - 1], t, line, memText);
    }
  }

  /**
   * When no matching entry is the reboot handler, the dispatch prints what
   * each matching entry's handler prints, position by position in increasing
   * order, and returns 0; with no match it prints the not-found notice and
   * returns -1.
   */
  lemma DispatchPrints(t: seq<Entry>, line: string, memText: string)
    requires forall i :: 0 <= i < |t| && Matches(t[i], line) ==> t[i].func != Boot
    ensures var m := MatchIndices(t, line); var d := Dispatch(t, line, memText);
      if m == [] then d.out == NotFound(line) && d.status == Returned(-1)
      else d.out == PrintedAt(m, t, line, memText) && d.status == Returned(0)
  {
    var m := MatchIndices(t, line);
    var hs := Matching(t, line);
    MatchingByIndex(t, line);
    if m != [] {
      assert forall k :: 0 <= k < |hs| ==> hs[k] == t[m[k]].func && hs[k] != Boot;
      assert UpToRestart(hs) == hs;
      OutputsAt(hs, m, t, line, memText);
    }
  }

  /** The handlers that actually run: all of them, up to and including the first reboot, which does not return. */
  function UpToRestart(hs: seq<Handler>): (r: seq<Handler>)
    ensures r <= hs
    ensures Boot !in hs ==> r == hs
    ensures Boot in hs ==> |r| > 0 && r[|r| - 1] == Boot && Boot !in r[..|r| - 1]
  {
    if hs == [] then []
    else if hs[0] == Boot then [Boot]
    else
      var rest := UpToRestart(hs[1..]);
      var r := [hs[0]] + rest;
      assert hs == [hs[0]] + hs[1..];
      assert hs[..|r|] == [hs[0]] + hs[1..][..|rest|];
      assert Boot in hs ==> Boot in hs[1..] && r[..|r| - 1] == [hs[0]] + rest[..|rest| - 1];
      r
  }

  /** What a run of handlers prints, one after the other. */
  function Outputs(hs: seq<Handler>, t: seq<Entry>, line: string, memText: string): (r: string)
    ensures r == "" || r[|r| - 1] == '\n'
    ensures (forall k :: 0 <= k < |hs| ==> hs[k] == Noop || hs[k] == Stat || hs[k] == Dump) ==> r == ""
    decreases |hs|
  {
    if hs == [] then ""
    else
      var init := hs[..|hs| - 1];
      assert forall k :: 0 <= k < |init| ==> init[k] == hs[k];
      var before, last := Outputs(init, t, line, memText), HandlerOutput(hs[|hs| - 1], t, line, memText);
      assert last == "" ==> before + last == before;
      assert last != "" ==> (before + last)[|before + last| - 1] == last[|last| - 1];
      before + last
  }

  /** The notice printed for a line that matches no entry. */
  function NotFound(line: string): string {
    "Command '" + line + "' not found.\n"
  }

  /** How a dispatch ends: it returns parse_cmd's code, or the device restarts. */
  datatype Status = Returned(code: int) | Restarted

  /** The handlers that ran, what was printed, and how the dispatch ended. */
  datatype Dispatched = Dispatched(fired: seq<Handler>, out: string, status: Status)

  /** The effect of dispatching one line on a table. */
  function Dispatch(t: seq<Entry>, line: string, memText: string): (d: Dispatched)
    ensures d.fired <= Matching(t, line)
    ensures d.fired == [] <==> d.status == Returned(-1)
    ensures d.status == Restarted <==> Boot in d.fired
    ensures Boot in d.fired ==> d.fired[|d.fired| - 1] == Boot
    ensures |d.out| > 0 ==> d.out[|d.out| - 1] == '\n'
  {
    var found := Matching(t, line);
    if found == [] then Dispatched([], NotFound(line), Returned(-1))
    else
      var fired := UpToRestart(found);
      Dispatched(fired, Outputs(fired, t, line, memText), if Boot in found then Restarted else Returned(0))
  }

  /**
   * A dispatch returns -1 and prints only the not-found notice exactly when
   * no entry matches; it restarts exactly when a matching entry is the reboot
   * handler; otherwise it returns 0 having run the handler of every matching
   * entry, in table order.
   */
  lemma DispatchOutcome(t: seq<Entry>, line: string, memText: string)
    ensures var d := Dispatch(t, line, memText);
      && (d.status == Returned(-1) <==> forall i :: 0 <= i < |t| ==> !Matches(t[i], line))
      && (d.status == Returned(-1) ==> d.fired == [] && d.out == "Command '" + line + "' not found.\n")
      && (d.status == Restarted <==> exists i :: 0 <= i < |t| && Matches(t[i], line) && t[i].func == Boot)
      && (d.status == Returned(0) ==> d.fired == Matching(t, line))
      && (d.status == Returned(0) ==> forall i :: 0 <= i < |t| && Matches(t[i], line) ==> t[i].func in d.fired)
      && (d.status.Returned? ==> d.status.code == 0 || d.status.code == -1)
  {
    MatchingExactly(t, line);
  }

  /** Two names that are both prefixes of one line are prefixes of one another. */
  lemma PrefixesOfOneLine(a: string, b: string, line: string)
    requires a <= line && b <= line
    ensures a <= b || b <= a
  {
    if |a| <= |b| {
      assert b[..|a|] == line[..|a|];
    } else {
      assert a[..|b|] == line[..|b|];
    }
  }

  /** No name of the table is a prefix of another. */
  predicate PrefixFree(t: seq<Entry>) {
    forall i, j :: 0 <= i < |t| && 0 <= j < |t| && i != j ==> !(t[i].cmd <= t[j].cmd)
  }

  /** When no name is a prefix of another, at most one handler runs for any line. */
  lemma {:induction false} PrefixFreeFiresAtMostOne(t: seq<Entry>, line: string)
    requires PrefixFree(t) && IsCString(line)
    requires forall i :: 0 <= i < |t| ==> EntryOk(t[i])
    ensures |Matching(t, line)| <= 1
    decreases |t|
  {
    if t != [] {
      var init := t[..|t| - 1];
      var last := t[|t| - 1];
      assert forall i :: 0 <= i < |init| ==> init[i] == t[i];
      PrefixFreeFiresAtMostOne(init, line);
      if Matches(last, line) {
        MatchingExactly(init, line);
        forall i | 0 <= i < |init|
          ensures !Matches(init[i], line)
        {
          MatchesIsPrefix(last, line);
          MatchesIsPrefix(init[i], line);
          if Matches(init[i], line) {
            PrefixesOfOneLine(init[i].cmd, last.cmd, line);
            assert false;
          }
        }
      }
    }
  }

  /** The shipped names start with eight different characters, so none is a prefix of another. */
  lemma ShippedPrefixFree()
    ensures PrefixFree(ShippedTable)
  {
    var t := ShippedTable;
    forall i, j | 0 <= i < |t| && 0 <= j < |t| && i != j
      ensures !(t[i].cmd <= t[j].cmd)
    {
      assert t[i].cmd[0] != t[j].cmd[0];
    }
  }

  /**
   * In a table where no name is a prefix of another, a line that begins with
   * the name of entry k runs exactly that entry's handler and prints what it prints.
   */
  lemma DispatchByName(t: seq<Entry>, line: string, k: nat, memText: string)
    requires PrefixFree(t) && IsCString(line)
    requires forall i :: 0 <= i < |t| ==> EntryOk(t[i])
    requires k < |t| && t[k].cmd <= line
    ensures Matching(t, line) == [t[k].func]
    ensures Dispatch(t, line, memText) ==
      Dispatched([t[k].func], HandlerOutput(t[k].func, t, line, memText),
                 if t[k].func == Boot then Restarted else Returned(0))
  {
    PrefixFreeFiresAtMostOne(t, line);
    MatchesIsPrefix(t[k], line);
    MatchingExactly(t, line);
    var m := Matching(t, line);
    assert |m| == 1 && m[0] == t[k].func;
    assert m == [t[k].func];
    SingleMatch(t, line, t[k].func, memText);
  }

  /** When exactly one handler matches, the dispatch runs it alone and prints what it prints. */
  lemma SingleMatch(t: seq<Entry>, line: string, h: Handler, memText: string)
    requires Matching(t, line) == [h]
    ensures Dispatch(t, line, memText) ==
      Dispatched([h], HandlerOutput(h, t, line, memText), if h == Boot then Restarted else Returned(0))
  {
    OutputsOfOne(h, t, line, memText);
    assert UpToRestart([h]) == [h] by {
      assert [h][1..] == [];
    }
  }

  /** A single handler prints what it prints. */
  lemma OutputsOfOne(h: Handler, t: seq<Entry>, line: string, memText: string)
    ensures Outputs([h], t, line, memText) == HandlerOutput(h, t, line, memText)
  {
    assert [h][..0] == [];
    assert Outputs([], t, line, memText) == "";
  }

  /**
   * A line that begins with a shipped name runs exactly that name's handler
   * and prints what that handler prints.
   */
  lemma ShippedDispatchByName(line: string, k: nat, memText: string)
    requires IsCString(line) && k < |ShippedTable| && ShippedTable[k].cmd <= line
    ensures Matching(ShippedTable, line) == [ShippedTable[k].func]
    ensures Dispatch(ShippedTable, line, memText) ==
      Dispatched([ShippedTable[k].func],
                 HandlerOutput(ShippedTable[k].func, ShippedTable, line, memText),
                 if ShippedTable[k].func == Boot then Restarted else Returned(0))
  {
    ShippedListsZip();
    ShippedPrefixFree();
    DispatchByName(ShippedTable, line, k, memText);
  }

  /** A line that no shipped name is a prefix of, the empty line among them, is reported as not found. */
  lemma ShippedNotFound(line: string, memText: string)
    requires IsCString(line)
    requires forall k :: 0 <= k < |ShippedTable| ==> !(ShippedTable[k].cmd <= line)
    ensures Dispatch(ShippedTable, line, memText) == Dispatched([], "Command '" + line + "' not found.\n", Returned(-1))
  {
    ShippedListsZip();
    forall k | 0 <= k < |ShippedTable|
      ensures !Matches(ShippedTable[k], line)
    {
      MatchesIsPrefix(ShippedTable[k], line);
    }
    MatchingExactly(ShippedTable, line);
  }

  /** "echo " followed by any text prints that text; "echo hello world" prints "hello world". */
  lemma ShippedEchoArgument(arg: string, memText: string)
    requires IsCString(arg)
    ensures Dispatch(ShippedTable, "echo " + arg, memText) == Dispatched([Echo], arg + "\n", Returned(0))
  {
    var line := "echo " + arg;
    assert line == "echo" + " " + arg;
    assert IsCString(line) by {
      assert forall c :: c in line ==> c in "echo " || c in arg;
    }
    assert "echo" <= line by {
      assert line[..4] == "echo";
    }
    EchoArgument("echo", arg);
    ShippedDispatchByName(line, 0, memText);
  }

  /** Every line that begins with "echo" and holds no space, "echo" and "echoX" among them, prints the blank-argument notice. */
  lemma ShippedEchoBlank(line: string, memText: string)
    requires IsCString(line) && "echo" <= line && ' ' !in line
    ensures Dispatch(ShippedTable, line, memText) == Dispatched([Echo], "Echo with blank argument\n", Returned(0))
  {
    ShippedDispatchByName(line, 0, memText);
  }

  /** Every line that begins with "noop", "stat" or "dump" runs only that handler, prints nothing and returns 0. */
  lemma ShippedSilent(line: string, k: nat, memText: string)
    requires IsCString(line) && (k == 1 || k == 4 || k == 5) && ShippedTable[k].cmd <= line
    ensures Dispatch(ShippedTable, line, memText) == Dispatched([ShippedTable[k].func], "", Returned(0))
  {
    var h := ShippedTable[k].func;
    assert h == Noop || h == Stat || h == Dump;
    assert HandlerOutput(h, ShippedTable, line, memText) == "";
    ShippedDispatchByName(line, k, memText);
  }

  /** Every line that begins with "mem", such as "memory", runs only the memory report. */
  lemma ShippedMem(line: string, memText: string)
    requires IsCString(line) && "mem" <= line
    ensures Dispatch(ShippedTable, line, memText) == Dispatched([Mem], " used memory: " + memText + "\n", Returned(0))
  {
    ShippedDispatchByName(line, 2, memText);
  }

  /** Every line that begins with "reboot" prints the reboot notice and restarts the device. */
  lemma ShippedReboot(line: string, memText: string)
    requires IsCString(line) && "reboot" <= line
    ensures Dispatch(ShippedTable, line, memText) == Dispatched([Boot], " reboot in 2 seconds.\n", Restarted)
  {
    ShippedDispatchByName(line, 3, memText);
  }

  /**
   * In a prefix-free table, two entries without spaces in their names that
   * share a handler are interchangeable: followed by the same text, they run
   * the same handler and print the same.
   */
  lemma SameHandlerSameEffect(t: seq<Entry>, i: nat, j: nat, rest: string, memText: string)
    requires PrefixFree(t) && forall k :: 0 <= k < |t| ==> EntryOk(t[k])
    requires i < |t| && j < |t| && t[i].func == t[j].func
    requires ' ' !in t[i].cmd && ' ' !in t[j].cmd && IsCString(rest)
    ensures Dispatch(t, t[i].cmd + rest, memText) == Dispatch(t, t[j].cmd + rest, memText)
  {
    var l1, l2, h := t[i].cmd + rest, t[j].cmd + rest, t[i].func;
    WordThenText(t[i].cmd, rest);
    WordThenText(t[j].cmd, rest);
    OnlyArgumentCounts(t, t[i].cmd, t[j].cmd, rest);
    assert HandlerOutput(h, t, l1, memText) == HandlerOutput(h, t, l2, memText);
    DispatchByName(t, l1, i, memText);
    DispatchByName(t, l2, j, memText);
  }

  /** "?" and "help" are interchangeable: followed by the same text, they run the same handler and print the same. */
  lemma ShippedHelpAlias(rest: string, memText: string)
    requires IsCString(rest)
    ensures Dispatch(ShippedTable, "?" + rest, memText) == Dispatch(ShippedTable, "help" + rest, memText)
  {
    ShippedListsZip();
    ShippedPrefixFree();
    var t := ShippedTable;
    assert t[6].cmd == "?" && t[7].cmd == "help";
    SameHandlerSameEffect(t, 6, 7, rest, memText);
  }

  /** A word followed by text begins with that word, and stays a C string when both are. */
  lemma WordThenText(word: string, rest: string)
    requires IsCString(word) && IsCString(rest)
    ensures IsCString(word + rest) && word <= word + rest
  {
    var s := word + rest;
    assert forall c :: c in s ==> c in word || c in rest;
    assert s[..|word|] == word;
  }

  /** The empty line is reported as not found. */
  lemma ShippedEmptyLine(memText: string)
    ensures Dispatch(ShippedTable, "", memText) == Dispatched([], "Command '' not found.\n", Returned(-1))
  {
    ShippedNotFound("", memText);
  }

  /** Two matches, neither of them the reboot handler, both run in table order and print one after the other. */
  lemma TwoMatches(t: seq<Entry>, line: string, h1: Handler, h2: Handler, memText: string)
    requires Matching(t, line) == [h1, h2] && h1 != Boot && h2 != Boot
    ensures Dispatch(t, line, memText) ==
      Dispatched([h1, h2], HandlerOutput(h1, t, line, memText) + HandlerOutput(h2, t, line, memText), Returned(0))
  {
    assert UpToRestart([h1, h2]) == [h1, h2];
    OutputsOfOne(h1, t, line, memText);
    OutputsStep([h1], h2, t, line, memText);
    assert [h1] + [h2] == [h1, h2];
  }

  /** The names "ec" and "e" overlap: a line that begins with "ec" matches both, in table order. */
  lemma OverlappingNamesMatch(line: string)
    requires IsCString(line) && "ec" <= line
    ensures Matching([Entry("ec", "", 2, Echo), Entry("e", "", 1, Noop)], line) == [Echo, Noop]
  {
    var t := [Entry("ec", "", 2, Echo), Entry("e", "", 1, Noop)];
    assert line[..1] == "e";
    MatchesIsPrefix(t[0], line);
    MatchesIsPrefix(t[1], line);
    assert t[..1][..0] == [];
    assert t[..1] == [t[0]];
  }

  /**
   * When two names overlap, one line runs both handlers, in table order: with
   * the names "ec" and "e", "echo " and any text echoes the text and then runs noop.
   */
  lemma OverlappingNamesFireTwice(arg: string, memText: string)
    requires IsCString(arg)
    ensures Dispatch([Entry("ec", "", 2, Echo), Entry("e", "", 1, Noop)], "echo" + " " + arg, memText) ==
      Dispatched([Echo, Noop], arg + "\n", Returned(0))
  {
    var t := [Entry("ec", "", 2, Echo), Entry("e", "", 1, Noop)];
    var line := "echo" + " " + arg;
    WordThenText("ec", "ho" + " " + arg);
    assert "ec" + ("ho" + " " + arg) == line;
    OverlappingNamesMatch(line);
    TwoMatches(t, line, Echo, Noop, memText);
    EchoArgument("echo", arg);
  }


  /**
   * The interpreter's global state: the three parallel lists it is configured
   * with and the static parse table that initparser fills from them.
   */
  class Interpreter {
    const cmdarr: seq<Option<string>>
    const funcarr: seq<Option<Handler>>
    const helparr: seq<Option<string>>
    const parsearr: array<Slot>

    /** The parse table can be scanned: filled records up to a NULL name. */
    ghost predicate Valid()
      reads parsearr
    {
      WellFormed(parsearr[..])
    }

    /** The entries of the parse table, up to its sentinel. */
    function Table(): seq<Entry>
      reads parsearr
      requires Valid()
    {
      Entries(parsearr[..])
    }

    /** The static parse table is zero-initialised, one record per name plus two. */
    constructor (cmds: seq<Option<string>>, funcs: seq<Option<Handler>>, helps: seq<Option<string>>)
      ensures cmdarr == cmds && funcarr == funcs && helparr == helps
      ensures fresh(parsearr) && parsearr.Length == |cmds| + 2
      ensures forall i :: 0 <= i < parsearr.Length ==> parsearr[i] == Zero
      ensures Valid() && Table() == []
    {
      cmdarr, funcarr, helparr := cmds, funcs, helps;
      parsearr := new Slot[|cmds| + 2](_ => Zero);
    }

    /**
     * initparser: copies name, handler and help text of every position before
     * the first NULL name into the parse table, with the name's length, and
     * writes the NULL name into the next record.
     */
    method InitParser()
      requires Aligned(cmdarr, funcarr, helparr)
      requires parsearr.Length == |cmdarr| + 2
      modifies parsearr
      ensures forall i :: 0 <= i < FirstNull(cmdarr) ==>
        parsearr[i] == Slot(cmdarr[i], helparr[i], |cmdarr[i].value|, funcarr[i])
      ensures parsearr[FirstNull(cmdarr)] == old(parsearr[FirstNull(cmdarr)]).(cmd := None)
      ensures forall i :: FirstNull(cmdarr) < i < parsearr.Length ==> parsearr[i] == old(parsearr[i])
      ensures Valid() && Table() == Zip(cmdarr, funcarr, helparr)
    {
      var idx := 0;
      while true
        invariant idx <= FirstNull(cmdarr)
        invariant forall i :: 0 <= i < idx ==>
          parsearr[i] == Slot(cmdarr[i], helparr[i], |cmdarr[i].value|, funcarr[i])
        invariant forall i :: idx <= i < parsearr.Length ==> parsearr[i] == old(parsearr[i])
        decreases FirstNull(cmdarr) - idx
      {
        var curr := cmdarr[idx];
        parsearr[idx] := parsearr[idx].(cmd := curr);
        if curr.None? {
          break;
        }
        parsearr[idx] := parsearr[idx].(len := |curr.value|, func := funcarr[idx], help := helparr[idx]);
        idx := idx + 1;
      }
      EntriesOfLayout(parsearr[..], Zip(cmdarr, funcarr, helparr));
    }

    /**
     * parse_cmd: scans the parse table in order up to its sentinel, runs the
     * handler of every entry whose name the line begins with, and prints the
     * not-found notice when none matched. The length argument is passed on to
     * the handlers, none of which reads it.
     */
    method ParseCmd(buff: string, len: int, memText: string) returns (r: Dispatched)
      requires Valid() && IsCString(buff)
      ensures r == Dispatch(Table(), buff, memText)
    {
      var t := Table();
      var ret := -1;
      var idx := 0;
      var fired: seq<Handler> := [];
      var out := "";
      while true
        invariant idx <= |t|
        invariant fired == Matching(t[..idx], buff) && Boot !in fired
        invariant out == Outputs(fired, t, buff, memText)
        invariant ret == (if fired == [] then -1 else 0)
        decreases |t| - idx
      {
        var currp := parsearr[idx];
        if currp.cmd.None? {
          break;
        }
        assert idx < |t|;
        assert currp == Slot(Some(t[idx].cmd), Some(t[idx].help), t[idx].len, Some(t[idx].func));
        var entry := Entry(currp.cmd.value, currp.help.value, currp.len, currp.func.value);
        assert entry == t[idx];
        MatchingStep(t, idx, buff);
        if StrNEq(buff, entry.cmd, entry.len) {
          assert Matching(t[..idx + 1], buff) == fired + [entry.func];
          ret := 0;
          OutputsStep(fired, entry.func, t, buff, memText);
          fired := fired + [entry.func];
          out := out + HandlerOutput(entry.func, t, buff, memText);
          if entry.func == Boot {
            // esp_restart does not return: the scan ends here
            RestartCutsScan(t, idx, buff, fired, memText);
            r := Dispatched(fired, out, Restarted);
            return;
          }
        }
        idx := idx + 1;
      }
      assert idx == |t| && t[..idx] == t;
      assert fired == Matching(t, buff) && UpToRestart(fired) == fired;
      if ret != 0 {
        assert out == "";
        out := out + NotFound(buff);
      }
      r := Dispatched(fired, out, Returned(ret));
    }

    /** interpret: dispatches a line with its length. */
    method Interpret(comm: string, memText: string) returns (r: Dispatched)
      requires Valid() && IsCString(comm)
      ensures r == Dispatch(Table(), comm, memText)
    {
      r := ParseCmd(comm, |comm|, memText);
    }
  }

  /**
   * The interpreter as the firmware sets it up: the shipped lists, a parse
   * table of eleven zeroed records, and initparser run once over them.
   */
  method ShippedInterpreter() returns (it: Interpreter)
    ensures fresh(it.parsearr) && it.parsearr.Length == 11
    ensures it.Valid() && it.Table() == ShippedTable
    ensures it.parsearr[8].cmd.None?
    ensures it.parsearr[9] == Zero && it.parsearr[10] == Zero
  {
    ShippedListsAligned();
    ShippedListsZip();
    it := new Interpreter(CmdArr, FuncArr, HelpArr);
    it.InitParser();
  }

  /** Scanning one more entry adds its handler when it matches. */
  lemma MatchingStep(t: seq<Entry>, idx: nat, line: string)
    requires idx < |t|
    ensures Matching(t[..idx + 1], line) == Matching(t[..idx], line) + (if Matches(t[idx], line) then [t[idx].func] else [])
  {
    assert t[..idx + 1][..idx] == t[..idx];
  }

  /** Running one more handler adds what it prints. */
  lemma OutputsStep(hs: seq<Handler>, h: Handler, t: seq<Entry>, line: string, memText: string)
    ensures Outputs(hs + [h], t, line, memText) == Outputs(hs, t, line, memText) + HandlerOutput(h, t, line, memText)
  {
    assert (hs + [h])[..|hs|] == hs;
  }

  /** Once the reboot handler at position idx runs, the handlers that ran are all that the specification runs. */
  lemma RestartCutsScan(t: seq<Entry>, idx: nat, line: string, fired: seq<Handler>, memText: string)
    requires idx < |t| && Matches(t[idx], line) && t[idx].func == Boot
    requires fired == Matching(t[..idx], line) + [Boot] && Boot !in Matching(t[..idx], line)
    ensures Dispatch(t, line, memText) == Dispatched(fired, Outputs(fired, t, line, memText), Restarted)
  {
    assert t == t[..idx + 1] + t[idx + 1..];
    MatchingAppend(t[..idx + 1], t[idx + 1..], line);
    assert t[..idx + 1][..idx] == t[..idx];
    var found := Matching(t, line);
    assert found == fired + Matching(t[idx + 1..], line);
    UpToRestartPrefix(fired, Matching(t[idx + 1..], line));
    assert found[|fired| - 1] == Boot;
  }

  /** Whatever follows a first reboot never runs. */
  lemma {:induction false} UpToRestartPrefix(hs: seq<Handler>, more: seq<Handler>)
    requires |hs| > 0 && hs[|hs| - 1] == Boot && Boot !in hs[..|hs| - 1]
    ensures UpToRestart(hs + more) == hs
  {
    if hs[0] != Boot {
      assert (hs + more)[1..] == hs[1..] + more;
      assert hs[1..][..|hs[1..]| - 1] == hs[..|hs| - 1][1..];
      UpToRestartPrefix(hs[1..], more);
      assert hs == [hs[0]] + hs[1..];
    } else {
      assert |hs| == 1;
    }
  }
}
