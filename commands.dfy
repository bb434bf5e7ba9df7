/**
 * The command table of the interpreter: the three NULL-terminated parallel
 * lists of names, handlers and help texts, and the parse table built from them.
 */
module Commands {
  import opened Optional
  import opened CStrings

  /** The handler functions the table can point to, one tag per C function. */
  datatype Handler = Echo | Noop | Mem | Boot | Stat | Dump | Help

  /**
   * One record (struct parse) of the static parse table. Its cmd is NULL in
   * the sentinel record and in the records that were never filled.
   */
  datatype Slot = Slot(cmd: Option<string>, help: Option<string>, len: nat, func: Option<Handler>)

  /** A record of the zero-initialised static parse table. */
  const Zero: Slot := Slot(None, None, 0, None)

  /** A filled record, as the dispatcher and the help handler see it. */
  datatype Entry = Entry(cmd: string, help: string, len: nat, func: Handler)

  const EchoHelp: string := "echo: echo string back to terminal"
  const NoopHelp: string := "noop: NOOP does nothing"
  const MemHelp: string := "mem: Show  memory consumption (leak detection)"
  const BootHelp: string := "reboot: reboot "
  const StatHelp: string := "stat: show  internal tables and statistics"
  const DumpHelp: string := "dump: dump current stuff ..."
  const HelpHelp: string := "help: Show help on command"

  /** cmdarr: the command names, NULL-terminated. */
  const CmdArr: seq<Option<string>> :=
    [Some("echo"), Some("noop"), Some("mem"), Some("reboot"),
     Some("stat"), Some("dump"), Some("?"), Some("help"), None]

  /** funcarr: the handler of each name; "?" and "help" share one. */
  const FuncArr: seq<Option<Handler>> :=
    [Some(Echo), Some(Noop), Some(Mem), Some(Boot),
     Some(Stat), Some(Dump), Some(Help), Some(Help), None]

  /** helparr: the help text of each name; "?" and "help" share one. */
  const HelpArr: seq<Option<string>> :=
    [Some(EchoHelp), Some(NoopHelp), Some(MemHelp), Some(BootHelp),
     Some(StatHelp), Some(DumpHelp), Some(HelpHelp), Some(HelpHelp), None]

  /** The position of the first NULL in a NULL-terminated list. */
  function FirstNull<T>(s: seq<Option<T>>): (n: nat)
    requires exists i :: 0 <= i < |s| && s[i].None?
    ensures n < |s| && s[n].None?
    ensures forall i :: 0 <= i < n ==> s[i].Some?
  {
    if s[0].None? then 0
    else
      assert exists i :: 0 <= i < |s[1..]| && s[1..][i].None? by {
        var i :| 0 <= i < |s| && s[i].None?;
        assert s[1..][i - 1] == s[i];
      }
      FirstNull(s[1..]) + 1
  }

  /** What the table's author must keep: the three lists agree up to the first NULL name. */
  predicate Aligned(cmds: seq<Option<string>>, funcs: seq<Option<Handler>>, helps: seq<Option<string>>) {
    && (exists i :: 0 <= i < |cmds| && cmds[i].None?)
    && FirstNull(cmds) <= |funcs|
    && FirstNull(cmds) <= |helps|
    && forall i :: 0 <= i < FirstNull(cmds) ==>
         IsCString(cmds[i].value) && funcs[i].Some? && helps[i].Some?
  }

  /** The table the builder is meant to produce: record i zips name i, its length, handler i and help i. */
  function Zip(cmds: seq<Option<string>>, funcs: seq<Option<Handler>>, helps: seq<Option<string>>): (t: seq<Entry>)
    requires Aligned(cmds, funcs, helps)
    ensures |t| == FirstNull(cmds)
    ensures forall i :: 0 <= i < |t| ==> EntryOk(t[i])
  {
    var n := FirstNull(cmds);
    seq(n, i requires 0 <= i < n => Entry(cmds[i].value, helps[i].value, |cmds[i].value|, funcs[i].value))
  }

  /** A filled record: a name, its length as strlen gives it, a help text and a handler. */
  predicate Filled(s: Slot) {
    s.cmd.Some? && IsCString(s.cmd.value) && s.len == |s.cmd.value| && s.help.Some? && s.func.Some?
  }

  /** A parse table the dispatcher can scan: filled records, then a record whose cmd is NULL. */
  predicate WellFormed(slots: seq<Slot>)
    decreases |slots|
  {
    |slots| > 0 && (slots[0].cmd.None? || (Filled(slots[0]) && WellFormed(slots[1..])))
  }

  /** A table entry is well-formed when its length is that of its name, a C string. */
  predicate EntryOk(e: Entry) {
    e.len == |e.cmd| && IsCString(e.cmd)
  }

  /** The entries of a parse table, up to its sentinel. */
  function Entries(slots: seq<Slot>): (t: seq<Entry>)
    requires WellFormed(slots)
    ensures |t| < |slots|
    ensures forall i :: 0 <= i < |t| ==> EntryOk(t[i])
    ensures forall i :: 0 <= i < |t| ==> slots[i] == Slot(Some(t[i].cmd), Some(t[i].help), t[i].len, Some(t[i].func))
    ensures slots[|t|].cmd.None?
    decreases |slots|
  {
    if slots[0].cmd.None? then []
    else
      var s := slots[0];
      [Entry(s.cmd.value, s.help.value, s.len, s.func.value)] + Entries(slots[1..])
  }

  /** A parse table laid out record by record from a list of entries is well-formed and holds exactly them. */
  lemma {:induction false} EntriesOfLayout(slots: seq<Slot>, t: seq<Entry>)
    requires |t| < |slots| && slots[|t|].cmd.None?
    requires forall i :: 0 <= i < |t| ==> EntryOk(t[i])
    requires forall i :: 0 <= i < |t| ==> slots[i] == Slot(Some(t[i].cmd), Some(t[i].help), t[i].len, Some(t[i].func))
    ensures WellFormed(slots) && Entries(slots) == t
  {
    if t != [] {
      assert Filled(slots[0]) by { assert EntryOk(t[0]); }
      EntriesOfLayout(slots[1..], t[1..]);
    }
  }

  /** The table the shipped lists describe. */
  const ShippedTable: seq<Entry> := [
    Entry("echo", EchoHelp, 4, Echo),
    Entry("noop", NoopHelp, 4, Noop),
    Entry("mem", MemHelp, 3, Mem),
    Entry("reboot", BootHelp, 6, Boot),
    Entry("stat", StatHelp, 4, Stat),
    Entry("dump", DumpHelp, 4, Dump),
    Entry("?", HelpHelp, 1, Help),
    Entry("help", HelpHelp, 4, Help)
  ]

  /** A list whose first NULL is at n: the position FirstNull finds. */
  lemma {:induction false} FirstNullAt<T>(s: seq<Option<T>>, n: nat)
    requires n < |s| && s[n].None? && forall i :: 0 <= i < n ==> s[i].Some?
    ensures FirstNull(s) == n
  {
    if n > 0 {
      FirstNullAt(s[1..], n - 1);
    }
  }

  /** The shipped lists are aligned and their sentinel is at index 8. */
  lemma ShippedListsAligned()
    ensures Aligned(CmdArr, FuncArr, HelpArr) && FirstNull(CmdArr) == 8
  {
    var cmds, funcs, helps := CmdArr, FuncArr, HelpArr;
    assert cmds[8].None?;
    FirstNullAt(cmds, 8);
    forall i | 0 <= i < 8
      ensures IsCString(cmds[i].value) && funcs[i].Some? && helps[i].Some?
    {
      assert NUL !in cmds[i].value;
    }
  }

  /** The shipped lists zip to the shipped table. */
  lemma ShippedListsZip()
    ensures Aligned(CmdArr, FuncArr, HelpArr)
    ensures Zip(CmdArr, FuncArr, HelpArr) == ShippedTable
  {
    ShippedListsAligned();
    var z := Zip(CmdArr, FuncArr, HelpArr);
    forall i | 0 <= i < 8
      ensures z[i] == ShippedTable[i]
    {
    }
  }

  /** "?" and "help" are aliases: the same handler and the same help text. */
  lemma HelpAliases()
    ensures ShippedTable[6].cmd == "?" && ShippedTable[7].cmd == "help"
    ensures ShippedTable[6].func == ShippedTable[7].func == Help
    ensures ShippedTable[6].help == ShippedTable[7].help == HelpHelp
  {
  }
}
