/**
 * The command handlers. Each one sees the parse table and the whole command
 * line; what it would print is returned as a string.
 */
module Handlers {
  import opened Optional
  import opened CStrings
  import opened Commands

  const BlankEcho: string := "Echo with blank argument\n"
  const HelpBanner: string := "Available functions:\n"
  const RebootNotice: string := " reboot in 2 seconds.\n"

  /** echofunc: prints what follows the first space, or a notice when there is no space. */
  function EchoFunc(line: string): (r: string)
    ensures ' ' !in line ==> r == BlankEcho
    ensures forall i :: 0 <= i < |line| && line[i] == ' ' && ' ' !in line[..i] ==> r == line[i + 1..] + "\n"
    ensures |r| > 0 && r[|r| - 1] == '\n'
  {
    match Argument(line)
    case Some(arg) => arg + "\n"
    case None => BlankEcho
  }

  /** The argument of a command word followed by a space is echoed back verbatim. */
  lemma EchoArgument(word: string, arg: string)
    requires ' ' !in word
    ensures EchoFunc(word + " " + arg) == arg + "\n"
  {
    ArgumentAfterWord(word, arg);
  }

  /** The listing of the help handler: each name followed by one space. */
  function Names(t: seq<Entry>): (r: string)
    ensures r == [] <==> t == []
    ensures r != [] ==> r[|r| - 1] == ' '
  {
    if t == [] then "" else t[0].cmd + " " + Names(t[1..])
  }

  /** The listing of a table split in two is the two listings, one after the other. */
  lemma {:induction false} NamesAppend(t1: seq<Entry>, t2: seq<Entry>)
    ensures Names(t1 + t2) == Names(t1) + Names(t2)
  {
    if t1 == [] {
      assert t1 + t2 == t2;
    } else {
      assert (t1 + t2)[1..] == t1[1..] + t2;
      NamesAppend(t1[1..], t2);
    }
  }

  /** The exact-name lookup of the help handler: the first entry named name, if any. */
  function Lookup(t: seq<Entry>, name: string): (r: Option<nat>)
    ensures r.Some? ==> r.value < |t| && t[r.value].cmd == name
    ensures r.Some? ==> forall j :: 0 <= j < r.value ==> t[j].cmd != name
    ensures r.None? <==> forall j :: 0 <= j < |t| ==> t[j].cmd != name
  {
    if t == [] then None
    else if t[0].cmd == name then Some(0)
    else
      match Lookup(t[1..], name)
      case None =>
        assert forall j :: 1 <= j < |t| ==> t[j] == t[1..][j - 1];
        None
      case Some(k) =>
        assert forall j :: 1 <= j < k + 1 ==> t[j] == t[1..][j - 1];
        Some(k + 1)
  }

  /**
   * helpfunc: without a space, the banner and the listing of all names; with
   * one, the help text of the entry named exactly by the rest of the line, or
   * nothing when no entry has that name.
   */
  function HelpFunc(t: seq<Entry>, line: string): (r: string)
    ensures r == "" <==> Argument(line).Some? && forall j :: 0 <= j < |t| ==> t[j].cmd != Argument(line).value
    ensures r == "" || r[|r| - 1] == '\n'
  {
    match Argument(line)
    case None => HelpBanner + Names(t) + "\n"
    case Some(arg) =>
      match Lookup(t, arg)
      case Some(k) => t[k].help + "\n"
      case None => ""
  }

  /** Help without an argument lists every name of the table, in table order. */
  lemma HelpLists(t: seq<Entry>, line: string)
    requires ' ' !in line
    ensures HelpFunc(t, line) == "Available functions:\n" + Names(t) + "\n"
  {
  }

  /**
   * Help with an argument prints the help text of the first entry named
   * exactly as the argument, and nothing when there is none.
   */
  lemma HelpLooksUp(t: seq<Entry>, word: string, name: string)
    requires ' ' !in word
    ensures (forall j :: 0 <= j < |t| ==> t[j].cmd != name) ==> HelpFunc(t, word + " " + name) == ""
    ensures forall k :: 0 <= k < |t| && t[k].cmd == name && (forall j :: 0 <= j < k ==> t[j].cmd != name) ==>
              HelpFunc(t, word + " " + name) == t[k].help + "\n"
  {
    ArgumentAfterWord(word, name);
    var r := HelpFunc(t, word + " " + name);
    match Lookup(t, name)
    case None =>
      assert r == "";
    case Some(i) =>
      assert r == t[i].help + "\n";
      assert forall k :: 0 <= k < |t| && t[k].cmd == name && (forall j :: 0 <= j < k ==> t[j].cmd != name) ==> k == i;
  }

  /**
   * Echo and help look only at what follows the first space, so two command
   * words without spaces followed by the same text print the same.
   */
  lemma OnlyArgumentCounts(t: seq<Entry>, w1: string, w2: string, rest: string)
    requires ' ' !in w1 && ' ' !in w2
    ensures EchoFunc(w1 + rest) == EchoFunc(w2 + rest)
    ensures HelpFunc(t, w1 + rest) == HelpFunc(t, w2 + rest)
  {
    ArgumentAfterPrefix(w1, rest);
    ArgumentAfterPrefix(w2, rest);
  }

  /**
   * What a handler prints for a line. memText stands for the decimal digits of
   * get_mem_usage, which comes from the heap allocator.
   */
  function HandlerOutput(h: Handler, t: seq<Entry>, line: string, memText: string): (r: string)
    ensures r == "" || r[|r| - 1] == '\n'
    ensures h == Noop || h == Stat || h == Dump ==> r == ""
    ensures r == "" ==> h == Noop || h == Stat || h == Dump || h == Help
  {
    match h
    case Echo => EchoFunc(line)
    case Help => HelpFunc(t, line)
    case Mem => " used memory: " + memText + "\n"
    case Boot => RebootNotice
    case Noop => ""
    case Stat => ""
    case Dump => ""
  }

  /** Listing one more entry appends its name and a space. */
  lemma NamesSnoc(t: seq<Entry>, k: nat)
    requires k < |t|
    ensures Names(t[..k + 1]) == Names(t[..k]) + t[k].cmd + " "
  {
    assert t[..k + 1] == t[..k] + [t[k]];
    NamesAppend(t[..k], [t[k]]);
    assert Names([t[k]]) == t[k].cmd + " " + Names([]);
  }

  /** The listing of an eight-entry table, name by name. */
  lemma ListingOfEight(t: seq<Entry>)
    requires |t| == 8
    ensures Names(t) == t[0].cmd + " " + t[1].cmd + " " + t[2].cmd + " " + t[3].cmd + " "
                      + t[4].cmd + " " + t[5].cmd + " " + t[6].cmd + " " + t[7].cmd + " "
  {
    assert t[..0] == [];
    NamesSnoc(t, 0);
    assert Names(t[..1]) == t[0].cmd + " ";
    NamesSnoc(t, 1);
    NamesSnoc(t, 2);
    NamesSnoc(t, 3);
    NamesSnoc(t, 4);
    NamesSnoc(t, 5);
    NamesSnoc(t, 6);
    NamesSnoc(t, 7);
    assert t[..8] == t;
  }

  /** Help with the name of entry k prints that entry's help text when no earlier entry has its name. */
  lemma HelpOnEntry(t: seq<Entry>, word: string, k: nat)
    requires ' ' !in word && k < |t|
    requires forall j :: 0 <= j < k ==> t[j].cmd != t[k].cmd
    ensures HelpFunc(t, word + " " + t[k].cmd) == t[k].help + "\n"
  {
    HelpLooksUp(t, word, t[k].cmd);
  }

  /** The listing of the shipped table, as help prints it. */
  lemma ShippedListing(line: string)
    requires ' ' !in line
    ensures HelpFunc(ShippedTable, line) ==
      "Available functions:\n" + ("echo" + " " + "noop" + " " + "mem" + " " + "reboot" + " "
                                 + "stat" + " " + "dump" + " " + "?" + " " + "help" + " ") + "\n"
  {
    var t := ShippedTable;
    ListingOfEight(t);
    HelpLists(t, line);
  }

  /** The shipped names are pairwise different: they start with eight different characters. */
  lemma ShippedNamesDistinct()
    ensures forall i, j :: 0 <= i < j < |ShippedTable| ==> ShippedTable[i].cmd != ShippedTable[j].cmd
  {
    var t := ShippedTable;
    forall i, j | 0 <= i < j < |t|
      ensures t[i].cmd != t[j].cmd
    {
      assert t[i].cmd[0] != t[j].cmd[0];
    }
  }

  /** Help, or its alias "?", followed by a shipped name prints that name's help text. */
  lemma ShippedHelpOnName(word: string, k: nat)
    requires ' ' !in word && k < |ShippedTable|
    ensures HelpFunc(ShippedTable, word + " " + ShippedTable[k].cmd) == ShippedTable[k].help + "\n"
  {
    ShippedNamesDistinct();
    HelpOnEntry(ShippedTable, word, k);
  }

  /** Help on any name that is not one of the eight shipped names prints nothing. */
  lemma ShippedHelpUnknown(word: string, name: string)
    requires ' ' !in word
    requires name != "echo" && name != "noop" && name != "mem" && name != "reboot"
    requires name != "stat" && name != "dump" && name != "?" && name != "help"
    ensures HelpFunc(ShippedTable, word + " " + name) == ""
  {
    var t := ShippedTable;
    assert forall j :: 0 <= j < |t| ==> t[j].cmd != name;
    HelpLooksUp(t, word, name);
  }
}
