# esp_inter command interpreter in Dafny

This project models the serial command interpreter of the esp_inter firmware:
the static command table and the parse table built from it, the dispatcher
that runs every command whose name the line begins with, the string-level
handlers (`echo`, `help`, and the silent `noop`, `stat` and `dump`), and the
line reader that fills the caller's buffer from the terminal.

Layout, one module per file:

- `option.dfy` (`Optional`): the `Option` type that stands for a C pointer that may be NULL.
- `cstrings.dfy` (`CStrings`): `strncmp` as `StrNEq`, `strstr(s, " ")` as `FindSpace`, and the text after the first space as `Argument`.
- `commands.dfy` (`Commands`): the handler tags, the records of `parsearr`, the shipped lists `cmdarr`, `funcarr` and `helparr`, the first-NULL search and the zip that `initparser` is meant to compute.
- `handlers.dfy` (`Handlers`): `echofunc`, `helpfunc` and what each handler prints.
- `interp.dfy` (`Interp`): the specification `Dispatch` of one command line, and the class `Interpreter` whose `InitParser`, `ParseCmd` and `Interpret` work on the parse table as an array.
- `reader.dfy` (`LineReader`): the reading loop `Read` as a function over a finite sequence of `fgetc` results, the delivered text `Delivered` as an independent reference, and `GetTermStr`, which writes into a `char` array.

Output that the C code prints with `printf` is returned as a string. The
terminal is a finite sequence of `fgetc` results in which `-1` means that no
character was available. The memory figure that `memfunc` prints comes from
the heap allocator, so it is the parameter `memText`. `bootfunc` never
returns, because it restarts the chip; a dispatch that reaches it ends with
the status `Restarted`.

The reader and the help handler behave as follows in the code:

- After a `-1`, the reader reads one more character and discards it (main/interp.c:251-257).
- The character that ends a line is echoed, and a newline follows it (main/interp.c:262-266). This holds for a newline and for the character that arrives when the buffer is full; neither is stored.
- The reader cuts a line when a character arrives while the buffer already holds `maxlen - 2` characters (main/interp.c:263). Reaching that length alone does not end the line.
- `help` without an argument prints the banner `Available functions:` on its own line. It then prints each name followed by one space, the last name included, and then a newline (main/interp.c:195-203).

## Model

| member | source | states |
|---|---|---|
| CStrings.StrNEqIsPrefix | main/interp.c:130 | With the bound set to strlen of the name, the strncmp test succeeds exactly when the name is a prefix of the line (both directions). |
| CStrings.StrNEq | main/interp.c:130 | strncmp over n characters of two C strings that are both at least n long reports equality exactly when their first n characters agree. |
| CStrings.FindSpace | main/interp.c:181 | strstr for " " gives the position of a space with no space before it, and gives nothing exactly when the line holds no space. |
| CStrings.Argument | main/interp.c:209-213 | The text after the first space exists exactly when the line holds a space, and it starts right after the first space. |
| CStrings.ArgumentAfterWord | main/interp.c:209-213 | For a word without a space followed by a space and some text, the argument is exactly that text. |
| CStrings.ArgumentAfterPrefix | main/interp.c:181 | Text without a space placed in front of a line does not change the line's argument. |
| Commands.FirstNull | main/interp.c:86-89 | The position of the first NULL of a NULL-terminated list: a NULL, with no NULL before it. |
| Commands.Zip | main/interp.c:293-295 | The table initparser should build has one entry per name before the first NULL, and each entry's length is the strlen of its name. |
| Commands.Entries | main/interp.c:104-112 | The entries of a parse table lie in the records before the NULL-name sentinel, one per record, field for field, each with its name's length. |
| Commands.EntriesOfLayout | main/interp.c:282-298 | A table written entry by entry, with a NULL name after the last entry, is well-formed and holds exactly those entries. |
| Commands.FirstNullAt | main/interp.c:86-89 | A NULL with no NULL before it is the one the first-NULL search finds. |
| Commands.ShippedListsAligned | main/interp.c:86-99 | The three shipped lists are aligned, their names are C strings, and the sentinel is at index 8. |
| Commands.ShippedListsZip | main/interp.c:58-99 | Zipping the shipped lists gives the eight shipped entries: echo, noop, mem, reboot, stat, dump, ? and help, with their handlers, help texts and lengths. |
| Commands.HelpAliases | main/interp.c:86-99 | "?" and "help" share the help handler and the help text. |
| Handlers.EchoArgument | main/interp.c:209-213 | echo prints everything after the first space and then a newline, when a word without a space comes before that space. So the line "echo " prints just a newline. |
| Handlers.EchoFunc | main/interp.c:207-220 | Without a space in the line, echo prints "Echo with blank argument" and a newline. With one, it prints everything after the first space and a newline. Either way its output ends with a newline. |
| Handlers.Names | main/interp.c:198-201 | The listing is empty exactly when the table is, and otherwise it ends with a space, because every name is followed by one. |
| Handlers.NamesAppend | main/interp.c:198-201 | Listing a table in two parts gives the two listings one after the other. |
| Handlers.Lookup | main/interp.c:186-193 | The lookup finds the first entry whose name equals the argument, and finds nothing exactly when no entry has that name. |
| Handlers.HelpFunc | main/interp.c:179-205 | help prints nothing exactly when the line has a space and no entry is named exactly as the text after it. Otherwise its output ends with a newline. |
| Handlers.HelpLists | main/interp.c:195-203 | Help on a line without a space prints the banner, each name followed by a space in table order, and a newline. |
| Handlers.HelpLooksUp | main/interp.c:183-194 | Help with an argument prints the help text and a newline of the first entry named exactly as the argument, and prints nothing when there is no such entry. |
| Handlers.OnlyArgumentCounts | main/interp.c:179-220 | echo and help read only what follows the first space, so two command words followed by the same text print the same. |
| Handlers.HandlerOutput | main/interp.c:169-239 | Every handler's output is empty or ends with a newline. noop, stat and dump print nothing, and only they and help can print nothing. |
| Handlers.ListingOfEight | main/interp.c:198-201 | The listing of an eight-entry table is its eight names in table order, each followed by a space. |
| Handlers.HelpOnEntry | main/interp.c:186-193 | Help on the name of entry k prints that entry's help text when no earlier entry has the same name. |
| Handlers.ShippedListing | main/interp.c:195-203 | With the shipped table, help without an argument prints "Available functions:", a newline, "echo noop mem reboot stat dump ? help " and a newline. |
| Handlers.ShippedNamesDistinct | main/interp.c:58-65 | The eight shipped names are pairwise different. |
| Handlers.ShippedHelpOnName | main/interp.c:183-194 | Help, or "?", followed by any shipped name prints that name's help text and a newline. |
| Handlers.ShippedHelpUnknown | main/interp.c:183-194 | Help on any name other than the eight shipped names, "bogus" for instance, prints nothing. |
| Interp.MatchesIsPrefix | main/interp.c:130 | An entry matches a line exactly when its name is a prefix of the line; shorter lines never match, and "echoX" or "memory" still do. |
| Interp.MatchingAppend | main/interp.c:124-137 | Scanning a table in two parts finds the matches of the first part, then those of the second. |
| Interp.MatchingExactly | main/interp.c:124-137 | The scan `Matching` finds no handler exactly when no entry matches. Every matching entry's handler is found, and every handler found belongs to a matching entry. |
| Interp.MatchIndices | main/interp.c:124-137 | The positions the scan stops at: exactly the matching entries, in increasing order. |
| Interp.MatchingByIndex | main/interp.c:124-137 | The scan `Matching` yields one handler per matching position, in table order, so two matching entries with the same handler run it twice. |
| Interp.Outputs | main/interp.c:133-134 | What a run of handlers prints is empty or ends with a newline, and is empty when only noop, stat and dump run. |
| Interp.UpToRestart | main/interp.c:227-233 | The handlers that run are a prefix of those that match: all of them when reboot is not among them, otherwise up to the first reboot. |
| Interp.Dispatch | main/interp.c:119-143 | The handlers that run are a prefix of the matching ones. Nothing runs exactly when the result is -1. The device restarts exactly when reboot runs, and then reboot is the last handler run. The output is empty or ends with a newline. |
| Interp.DispatchOutcome | main/interp.c:119-143 | A dispatch returns -1 and prints exactly the not-found notice iff no entry matches. It restarts iff a matching entry is reboot. Otherwise it returns 0 after running every matching handler in table order. |
| Interp.DispatchPrints | main/interp.c:124-142 | When no matching entry is reboot, the dispatch prints what each matching entry's handler prints, position by position in increasing order, and returns 0. With no match it prints only the not-found notice and returns -1. |
| Interp.PrefixFreeFiresAtMostOne | main/interp.c:124-137 | When no name is a prefix of another, at most one handler runs for any line. |
| Interp.ShippedPrefixFree | main/interp.c:58-65 | No shipped name is a prefix of another shipped name. |
| Interp.DispatchByName | main/interp.c:119-143 | In a prefix-free table, a line beginning with the name of entry k runs only that entry's handler and prints what it prints. |
| Interp.SingleMatch | main/interp.c:124-142 | When exactly one handler matches, the dispatch runs that handler alone, prints only its output, and returns 0 unless the handler is reboot. |
| Interp.ShippedDispatchByName | main/interp.c:119-143 | With the shipped table, a line beginning with a shipped name runs only that name's handler and prints what it prints. |
| Interp.SameHandlerSameEffect | main/interp.c:124-220 | In a prefix-free table, two entries with space-free names and the same handler, followed by the same text, have the same effect. |
| Interp.ShippedNotFound | main/interp.c:138-142 | With the shipped table, a line that begins with no shipped name runs nothing, prints "Command '<line>' not found." and returns -1. |
| Interp.ShippedEchoArgument | main/interp.c:209-213 | "echo " followed by any text prints that text and a newline and returns 0. |
| Interp.ShippedEchoBlank | main/interp.c:215-218 | Any line that begins with "echo" and holds no space prints the blank-argument notice. |
| Interp.ShippedSilent | main/interp.c:169-177 | Lines that begin with "noop", "stat" or "dump" run only that handler, print nothing and return 0. |
| Interp.ShippedMem | main/interp.c:235-239 | Lines that begin with "mem" run only memfunc, which prints " used memory: " and the usage figure. |
| Interp.ShippedReboot | main/interp.c:227-233 | Lines that begin with "reboot" print the reboot notice and restart the device. |
| Interp.ShippedHelpAlias | main/interp.c:86-99 | "?" and "help" followed by the same text have the same effect. |
| Interp.ShippedEmptyLine | main/interp.c:138-142 | The empty line is reported as not found and returns -1. |
| Interp.OverlappingNamesMatch | main/interp.c:124-137 | With the names "ec" and then "e", every line that begins with "ec" matches both entries, in table order. |
| Interp.OverlappingNamesFireTwice | main/interp.c:124-142 | The scan does not stop at the first match. With the names "ec" and then "e", the line "echo " followed by any text runs echo and then noop, prints the text and a newline, and returns 0. |
| Interp.TwoMatches | main/interp.c:124-142 | When exactly two handlers match and neither is reboot, both run in table order, their outputs are printed one after the other, and the result is 0. |
| Interp.Interpreter.constructor | main/interp.c:112 | The static parse table has two records more than the name list, and every record starts zeroed. |
| Interp.Interpreter.InitParser | main/interp.c:282-298 | After initparser, record i holds name i, help i, handler i and the name's strlen, for each i before the first NULL name. The NULL name is written at the sentinel and later records are untouched. The table read back is the zip of the lists. |
| Interp.Interpreter.ParseCmd | main/interp.c:119-143 | The loop over parsearr computes exactly the specified dispatch: the same handlers run and the same text is printed, with the same result or a restart. |
| Interp.Interpreter.Interpret | main/interp.c:148-155 | interpret dispatches the line as parse_cmd does. |
| Interp.ShippedInterpreter | main/interp.c:86-112 | initparser over the shipped lists builds an eleven-record table holding the eight shipped entries, with the sentinel at index 8. The two records after it stay zeroed. |
| Interp.RestartCutsScan | main/interp.c:227-233 | Once reboot runs, the handlers that ran so far are exactly those `Dispatch` runs before the restart. |
| Interp.UpToRestartPrefix | main/interp.c:231 | Handlers after the first reboot never run. |
| LineReader.Delivered | main/interp.c:250-260 | The text the terminal delivers is no longer than the input left and never holds a carriage return. |
| LineReader.Read | main/interp.c:248-273 | One read never moves backwards and never runs past the end of the input. |
| LineReader.ReadNext | main/interp.c:248-273 | Reading only moves forward through the input, and a line left unfinished has used up all of it. |
| LineReader.ReadBounded | main/interp.c:263-271 | The reader never stores more than maxlen - 2 characters. |
| LineReader.ReadClean | main/interp.c:259-263 | The stored line holds no carriage return and no newline, and a carriage return is never echoed. |
| LineReader.ReadEcho | main/interp.c:262-272 | The echo is the stored line, then the character that ended it, then a newline. The ending character is a newline or came with the buffer full. An unfinished line echoes exactly what it stored. |
| LineReader.ReadDelivered | main/interp.c:250-272 | The reader consumes the delivered text in order: the stored line, then the ending character, then what the rest of the input delivers. |
| LineReader.TruncatesAtCap | main/interp.c:263-268 | More than maxlen - 2 characters before a newline cut the line at exactly maxlen - 2 characters. The next character is echoed with a newline and not stored. |
| LineReader.StopsAtNewline | main/interp.c:263-268 | A newline that comes before maxlen - 2 other characters ends the line. The line is the text before the newline, the echo is that text and two newlines, and reading resumes after it. |
| LineReader.GetTermStr | main/interp.c:244-274 | The loop over the input is exactly the reading function. It stores at most Cap(maxlen) characters and the buffer holds the stored line. A NUL follows the line once it ends. No write lands past index Cap(maxlen) (maxlen - 2, or 0 when maxlen is 1), and every index after the stored line, and after its NUL once written, keeps its old value. |
| LineReader.ShellLineCap | main/main.c:55-59 | The shell's 64-byte buffer holds command lines of at most 62 characters. |

## Left out

- `app_main` (main/main.c:32-64): Wi-Fi, NVS and event-loop bring-up, and the endless prompt loop, are calls into the ESP-IDF platform. Only the buffer size that it passes to the reader is used, in `LineReader.ShellLineCap`.
- `get_mem_usage` (main/interp.c:160-166): it asks the heap allocator for a figure. The figure's decimal text is the parameter `memText`, and the `%d` conversion is not modelled.
- The delays in `bootfunc` and in the reader, `fflush`, and the `esp_restart` call itself: these are timing and platform effects. A restart is the status `Restarted`.
- The reader blocks while the terminal stays silent. Over a finite input, a line that no newline or full buffer ends is returned with `complete == false`.
- The reader stores a NUL byte it receives like any other character. The dispatcher's `requires IsCString(...)` excludes lines with a NUL inside, which C would cut short at that NUL. The step from the reader's buffer to `interpret` is not modelled.
- Interp.Interpreter.ParseCmd: the `len` argument is passed to every handler in C, but no handler reads it, so the model does not record it.
- Handlers.HandlerOutput: one `memText` serves every `memfunc` call of a dispatch, whereas the C code reads the heap at each call (main/interp.c:160-166, 235-237). In a table where two matching entries are both `memfunc`, the model prints the same figure twice, while the C code could print two different figures.
- Function pointers and `void *` casts in the tables: handlers are the tags of the datatype `Handler`.
- `strcmp` in `helpfunc` is sequence equality on NUL-free strings.
