# Proofs about the vtysh runtime library

The runtime library under `application/vtysh/lib` runs everything else in the shell: an event scheduler with timers,
option parsing, a hash table, output buffering, checksums and digests, address prefixes, byte streams and number
parsing. This project models those parts in Dafny 4.11 and proves what they promise. `dafny verify dfyconfig.toml`
checks all of it.

## How the model is laid out

* **Scheduler** (`thread.c`, `pqueue.c`). `Scheduler.ThreadMaster` has the five doubly linked lists, the two heaps,
  the descriptor sets and the allocation count, updated in place; `Pqueues.Pqueue` is the heap with its array and the
  back-pointer in every record. Each method is proved against `SchedulerSpec`, where a scheduler is a value and a call
  of the library a step from one value to the next. The invariant, the order of a pass and bounded waiting are proved
  about those steps, over every run; `TimelyFetching` bounds how long timers and descriptors wait. `SchedulerLaws`
  says in plain terms (microseconds, descriptors, positions) what the steps do. What `select` reports and what the
  clock reads are inputs.
* **Options** (`getopt.c`). `Getopts.Getopt` permutes argv in place. `Decode` is what one call does to one element,
  `Call` what it does to the scan, `Marks` where every element ends up, and `DocumentedMarks` where the documentation
  sends it. `GetoptLaws` says in terms of the strings what an option is and takes.
* **Hash table** (`hash.c`). `Hashes.HashTable` has an array of chains; its abstract value is a finite map from
  classes of equal items to the stored item.
* **Output buffer** (`buffer.c`). `Buffers.Buffer` has a list of chunks; its abstract value is the bytes not yet
  flushed.
* **Checksums, digests, hashes** (`checksum.c`, `md5.c`, `jhash.c`). Machine widths are written out. The MD5
  compression function is a parameter.
* **Prefixes, streams, parsing** (`prefix.c`, `stream.c`, `parse.c`).

Most of the longer proofs begin with a `hide` statement: it lists the definitions that the proof does not look into.

## Where the code does less than it says

* `buffer_flush_window` stops right behind the character that completes the last line allowed, so a last partial line
  that would fit is not shown. `Buffers.LongestIf` says exactly when its prefix is the longest, `Buffers.NotLongest`
  has an example. Any answer of `writev` other than a retryable error counts as everything written, so a short write
  or a fatal error loses the rest of the prefix (`Buffers.WindowLoses`, `Buffers.Conserved`).
* `_getopt_internal` advances optind once too often after `-W name` when the name begins several long options: it
  passes an element that is nobody's argument, or leaves argv (`Getopts.PassesItsArguments`, `Getopts.DecodeOverruns`,
  and the examples). With a null longopts, a `-W` that has a name reads through it (`Getopts.NameNeedsTable`). Both
  happen only with a "W;" option.
* The leading `-` or `+` of the option string, which selects an ordering and is documented as no option, is skipped
  only in the first call of a scan. Later calls read it as an option: with "+:a", `-a+` takes an operand
  (`Getopts.SignTakesOperand`), and with "-:a", `-a-` takes a "--" (`Getopts.SignTakesDashes`). `Getopts.HarmlessIf`
  says what to look up in the table beforehand. Where the sign does no other harm, it is still returned as an option
  and not reported as an error.
* `getopt_long_only` parses an element that is no long option as short ones, as documented, but then looks every
  further character of it up as a long option again (`Getopts.LongOnlyTakesOperand`).
* These are the only ways in which getopt reads an element otherwise than documented: `Getopts.TakenAsDocumented` says
  exactly which elements it reads so.
* `fletcher_checksum` puts a size_t product into an int. For a message long enough behind the offset that can change
  the remainder, and the checksum it generates then fails its own validation (`Fletcher.Checksum`,
  `Fletcher.LongMessageFails`). The comment that blocks of 5802 bytes should be fine does not hold for a signed int:
  4102 is the largest (`Fletcher.LongerBlockOverflows`). The assertion on the offset lets a length of 0 through,
  because the length minus one wraps around (`Fletcher.OffsetAssertion`); the model asks for a length of at least 2.
* `in_cksum` folds its sum twice, which is enough for 131076 bytes and not for one more (`InetChecksum.OneByteMore`),
  if a long holds the sum. Its comment assumes a long of 32 bits, which is enough for 65537 bytes and not for one more
  (`InetChecksum.FitsLong`, `InetChecksum.LongOverflows`).
* `hash_create_size` accepts a size of 0, with which no later call can work: such a table is not valid.
* The bound tests of `stream.c` add two size_t values, and the sum wraps around. `stream_forward_endp` can put endp
  before getp (`Streams.ForwardedOrder`, `Streams.ForwardBreaksOrder`), a put or get at a position can touch memory
  outside the data (`Streams.AccessIsInside`, `Streams.LastPositionIsOutside`), and `stream_put` of a huge length can
  write nothing (`Streams.HugePutPutsNothing`). What such a call touches outside the data is not modelled: `inside`
  tells that it happened.
* `stream.c` says that a put at a position is valid anywhere within the size; the code allows it only before endp, and
  the model follows the code. Where `stream.c` reports an access out of bounds it also fails an assertion; the model
  goes on as the code does when assertions are compiled out.
* `stream_dup` of an empty stream fails the assertion of `stream_new`; the model asks for content.
* `prefix_match` does not look at the address family. `ip6_masklen` reads a byte before it tests the length; the model
  tests the length first. `parseStrToByte` does not test its output pointer.
* `thread_cancel_event` also removes ready records with that argument that never were events.

## Bounds taken from the code

Sizes and counts are mathematical integers except where a width is written out. One call of `md5_loop` takes less than
2^29 bytes, because it counts bits in 32 of them; an expanding hash table has at most 2^30 chains; a word array for
`jhash2` has less than 2^32 bytes; a prefix length is at most 128, or 32 for an IPv4 mask; sizes of streams are below
2^64, also that of the two that `stream_dupcat` joins. A size_t has 64 bits. A stream resized to 0 has a block of no
bytes, where the realloc of the C library returns one; where it returns NULL, `zrealloc` aborts. IPv4 masks are
numbers in host order. Words read from memory are little-endian, and the bitwise "or" of bytes shifted apart is
written as a sum. The four signed parsers differ only in their width, and so do the four unsigned ones;
`Parsing.ParseSigned` and `Parsing.ParseUnsigned` take the width as a parameter. An accumulator of type signed char is
represented by its unsigned value.

## Model

| member | source | states |
|---|---|---|
| Timevals.Adjust | application/vtysh/lib/thread.c:66-85 | the loops of timeval_adjust end, and leave the same number of microseconds with 0 to 999999 of them beside the seconds, or zero if the time is negative |
| Timevals.Subtract | application/vtysh/lib/thread.c:88-96 | the difference in microseconds in that form, clamped at zero |
| Timevals.CmpOrdersMicros | application/vtysh/lib/thread.c:99-103 | on normal times the sign of timeval_cmp is the order of the times in microseconds, and it is zero only for equal times |
| Timevals.AlarmSpells | application/vtysh/lib/thread.c:743-770 | the alarm is the clock plus the span, to the microsecond, in normal form, and zero if that is negative |
| Timevals.MsecAlarm | application/vtysh/lib/thread.c:801-806 | splitting a millisecond span with truncating division and remainder never changes when the timer goes off, for negative spans too |
| Timevals.AlarmIsLater | application/vtysh/lib/thread.c:761-765 | a timer set for a positive span is not due now, and one for a span of zero or less is |
| SchedulerSpec.AddKeeps | application/vtysh/lib/thread.c:670-850 | filing a record on any of five containers keeps the scheduler invariant: each record in exactly one of seven containers, alloc their total size, the watched descriptors distinct and exactly the bits of the descriptor sets |
| SchedulerSpec.CancelKeeps | application/vtysh/lib/thread.c:854-905 | cancelling keeps the invariant; in particular exactly the descriptor of the record is cleared |
| SchedulerSpec.CancelEventKeeps | application/vtysh/lib/thread.c:909-949 | cancelling by argument keeps the invariant |
| SchedulerSpec.RunKeeps | application/vtysh/lib/thread.c:964-971 | handing out the head of the ready list and recycling its record keeps the invariant |
| SchedulerSpec.PromoteKeeps | application/vtysh/lib/thread.c:1021-1037 | moving all events to the ready list keeps the invariant |
| SchedulerSpec.PopKeeps | application/vtysh/lib/thread.c:1001-1017 | moving due timers to the ready list keeps the invariant |
| SchedulerSpec.WakeKeeps | application/vtysh/lib/thread.c:974-997 | moving records whose descriptor was reported, and clearing those descriptors, keeps the invariant |
| SchedulerSpec.PassOrder | application/vtysh/lib/thread.c:1065-1166 | a pass from an empty ready list leaves: events in order, due foreground timers, reported reads and writes in list order, due background timers |
| SchedulerSpec.PassTimers | application/vtysh/lib/thread.c:1001-1017 | the timers a pass moves are exactly those due, in nondecreasing expiry, and only the others stay in the heaps |
| SchedulerSpec.FetchOrder | application/vtysh/lib/thread.c:1053-1170 | the same for a call of thread_fetch, whatever select reported before: the record handed out followed by the ready list is that order, and every timer left is strictly later than the clock |
| SchedulerSpec.TripsKeep | application/vtysh/lib/thread.c:1053-1170 | the invariant holds at the top of every trip round the loop of thread_fetch, whatever select reports |
| SchedulerSpec.StepKeeps | application/vtysh/lib/thread.c:696-1171 | every public call keeps the invariant |
| SchedulerSpec.RunsKeepInvariant | application/vtysh/lib/thread.c:696-1171 | the invariant holds after every call of every run |
| SchedulerLaws.InvSays | application/vtysh/lib/thread.c:525-574 | the invariant, spelled out: no record is in two places or twice in one, every known record is in some place, and alloc counts them |
| SchedulerLaws.AddSays | application/vtysh/lib/thread.c:670-850 | an add call puts the record at the end of exactly the container asked for, sets exactly its descriptor, and takes a record that was in no other container |
| SchedulerLaws.CancelSays | application/vtysh/lib/thread.c:854-905 | cancelling leaves the record unused and in no other container, every other record where it was, and clears its descriptor if and only if it waited for it |
| SchedulerLaws.CancelEventSays | application/vtysh/lib/thread.c:909-949 | no event or ready record keeps the argument, every other record stays, and exactly those taken out become unused |
| SchedulerLaws.RunsHold | application/vtysh/lib/thread.c:696-850 | over every run of the add calls, cancels and fetches, records on the read and write lists hold a descriptor, records in the heaps a time with 0 to 999999 microseconds, and events a value |
| SchedulerLaws.WatchedAre | application/vtysh/lib/thread.c:696-740 | the descriptor sets are exactly the descriptors that those records hold, one record each |
| SchedulerLaws.FetchTimers | application/vtysh/lib/thread.c:1001-1017 | after a fetch that ends on a pass at a normal time, every timer left is later than that time in microseconds, and every timer that left is not, and is handed out or ready |
| SchedulerLaws.FetchInOrder | application/vtysh/lib/thread.c:1001-1017 | and the timers of one heap leave it in nondecreasing microseconds |
| SchedulerLaws.FetchDescriptors | application/vtysh/lib/thread.c:974-997 | exactly the records whose descriptor was reported stop waiting for it, and are handed out or ready |
| SchedulerLaws.FetchRanks | application/vtysh/lib/thread.c:1065-1170 | what is handed out and left ready is first the events in their order, then foreground timers, reads, writes and background timers |
| BoundedWaiting.FetchQueue | application/vtysh/lib/thread.c:1065-1077 | a fetch takes the head of ready-then-event, or puts later work behind all of it |
| BoundedWaiting.StandsAfter | application/vtysh/lib/thread.c:837-949 | a call that does not fetch moves a waiting record up by exactly the number of records ahead of it that it cancels |
| BoundedWaiting.StandsAfterFetch | application/vtysh/lib/thread.c:1065-1077 | a fetch that returns a record moves every other waiting one up by one |
| BoundedWaiting.FetchedInTurn | application/vtysh/lib/thread.c:1053-1170 | over any run, a record that no call cancels is fetched after exactly as many others as were ahead of it and were not cancelled; until then it is still waiting, that much nearer the head |
| BoundedWaiting.FetchedInTime | application/vtysh/lib/thread.c:1053-1170 | hence at the latest by fetch k + 1, with k records ahead of it |
| BoundedWaiting.EventStandsLast | application/vtysh/lib/thread.c:837-850 | an event joins behind every ready record and every earlier event |
| TimelyFetching.FetchInterrupted | application/vtysh/lib/thread.c:1065-1122 | a fetch in which select does not report hands out the head of the ready list or makes the events ready, and moves no timer and no descriptor |
| TimelyFetching.FewUnheard | application/vtysh/lib/thread.c:1065-1122 | over any run in which no select reports, no more is fetched than was ready, or made ready by selects that were interrupted or failed |
| TimelyFetching.SelectReports | application/vtysh/lib/thread.c:1065-1122 | so once more is fetched than that, a select has reported, after no more fetches than that |
| TimelyFetching.CalledIsReady | application/vtysh/lib/thread.c:1073-1170 | the fetch in which a timer is due or a descriptor reported hands out the first of what that pass makes ready, in its order, and leaves the others ready; they are no more than there are records |
| TimelyFetching.ServedAfterCall | application/vtysh/lib/thread.c:1053-1170 | over any run from that fetch on, such a record that no call cancels is fetched after no more others than are before it in that order |
| TimelyFetching.ServedInTime | application/vtysh/lib/thread.c:1053-1170 | no kind of work starves: over any run, a record that waits for a clock reading that has come or a descriptor that select reports, and that no call cancels, is fetched within the number of records ready now, plus those made ready by selects that do not report, plus its place in the order of the pass |
| TimelyFetching.CalledSays | application/vtysh/lib/thread.c:1065-1170 | a timer is called by a pass if and only if its time in microseconds is not later than the clock, a record on the read or write list if and only if its descriptor is reported |
| TimelyFetching.NoDelay | application/vtysh/lib/thread.c:1065-1122 | nothing is made ready by selects that do not report where the first select of every fetch reports |
| ThreadRecords.AppendChains | application/vtysh/lib/thread.c:547-557 | what thread_list_add writes makes the list one longer at the end, with all next and prev links right |
| ThreadRecords.UnlinkChains | application/vtysh/lib/thread.c:561-574 | what thread_list_delete writes takes out just that record, and leaves all links of the rest right |
| ThreadRecords.AppendKeeps | application/vtysh/lib/thread.c:547-557 | appending to one list changes no link of another |
| ThreadRecords.UnlinkKeeps | application/vtysh/lib/thread.c:561-574 | deleting from one list changes no link of another |
| Pqueues.UpStep | application/vtysh/lib/pqueue.c:51-66 | one step of trickle_up keeps the heap in order except at the lifted record |
| Pqueues.DownStep | application/vtysh/lib/pqueue.c:78-104 | one step of trickle_down keeps the heap in order except below the lifted record |
| Pqueues.RefillBridges | application/vtysh/lib/pqueue.c:173-187 | after the last record is put into any slot, the comparison with the parent decides correctly which way it has to trickle |
| Pqueues.RootIsLeast | application/vtysh/lib/pqueue.c:164-170 | no record of a heap comes before the one in slot 0 |
| Pqueues.Pqueue.TrickleUp | application/vtysh/lib/pqueue.c:46-69 | restores heap order upwards; every record ends with index equal to its slot |
| Pqueues.Pqueue.TrickleDown | application/vtysh/lib/pqueue.c:72-107 | restores heap order downwards; every record ends with index equal to its slot |
| Pqueues.Pqueue.Expand | application/vtysh/lib/pqueue.c:133-148 | doubles the array and keeps everything else |
| Pqueues.Pqueue.Enqueue | application/vtysh/lib/pqueue.c:151-161 | adds exactly the new record; heap order and back-pointers are kept, across growth of the array |
| Pqueues.Pqueue.Dequeue | application/vtysh/lib/pqueue.c:164-170 | removes slot 0, which no other record precedes, and nothing else; heap order and back-pointers are kept |
| Pqueues.Pqueue.RemoveAt | application/vtysh/lib/pqueue.c:173-187 | removes exactly the record in the given slot; heap order and back-pointers are kept |
| Pqueues.Pqueue.RemoveMember | application/vtysh/lib/thread.c:892-897 | removes a record through its back-pointer |
| SchedulerMoves.AppendLinks | application/vtysh/lib/thread.c:547-557 | appending to one of the five lists keeps the links of all five |
| SchedulerMoves.UnlinkLinks | application/vtysh/lib/thread.c:561-574 | deleting from one of the five lists keeps the links of all five |
| SchedulerMoves.GotIsTyped | application/vtysh/lib/thread.c:670-692 | a record from thread_get has the type it was asked for, and all other types still name the containers |
| SchedulerMoves.EnlistTyped | application/vtysh/lib/thread.c:974-997 | a record put on a list whose type it has keeps every type naming its container |
| SchedulerMoves.Located | application/vtysh/lib/thread.c:859-890 | the type of a record tells which container holds it |
| SchedulerMoves.SweepHit | application/vtysh/lib/thread.c:914-947 | moving the next matching record of a list while walking it is one step of the whole sweep |
| SchedulerMoves.WokenEnd | application/vtysh/lib/thread.c:974-997 | the walk of thread_process_fd ends with exactly the reported records moved and their descriptors cleared |
| SchedulerMoves.PoppedAll | application/vtysh/lib/thread.c:1001-1017 | when the timer loop stops, what it popped is exactly what is due, in order of expiry |
| Scheduler.ThreadMaster.constructor | application/vtysh/lib/thread.c:525-543 | an empty scheduler satisfies the invariant |
| Scheduler.ThreadMaster.Represents | application/vtysh/lib/thread.c:547-574 | in every reachable state the head, tail and count of the five lists, the next and prev pointers and types of their records, and the slots and back-pointers of the heaps are those of the abstract state |
| Scheduler.ThreadMaster.HeadAdd | application/vtysh/lib/thread.c:547-557 | thread_list_add on one struct thread_list, field by field |
| Scheduler.ThreadMaster.HeadDelete | application/vtysh/lib/thread.c:561-574 | thread_list_delete on one struct thread_list, field by field |
| Scheduler.ThreadMaster.Get | application/vtysh/lib/thread.c:670-692 | hands out the head of the unuse list, or a new record that is counted in alloc |
| Scheduler.ThreadMaster.AddRead | application/vtysh/lib/thread.c:696-716 | NULL and no change if the descriptor is already waited on, else the record joins the end of the read list with that argument and descriptor, and the descriptor is set; the record is one held before or a newly allocated one |
| Scheduler.ThreadMaster.AddWrite | application/vtysh/lib/thread.c:720-740 | the same for writing |
| Scheduler.ThreadMaster.AddTimeval | application/vtysh/lib/thread.c:743-770 | files the record in the foreground or background heap, with the clock plus the span in microseconds as its time, or zero if that is negative |
| Scheduler.ThreadMaster.AddTimer | application/vtysh/lib/thread.c:775-789 | the same with 1000000 times the seconds |
| Scheduler.ThreadMaster.AddTimerMsec | application/vtysh/lib/thread.c:793-807 | the same with 1000 times the milliseconds, of either sign |
| Scheduler.ThreadMaster.AddBackground | application/vtysh/lib/thread.c:811-833 | the same in the background heap, with or without a delay |
| Scheduler.ThreadMaster.AddEvent | application/vtysh/lib/thread.c:837-850 | files the record at the end of the event list |
| Scheduler.ThreadMaster.Cancel | application/vtysh/lib/thread.c:854-905 | moves a record from whatever container its type names to the unuse list, clearing its descriptor, and leaves an unused record alone |
| Scheduler.ThreadMaster.CancelEvent | application/vtysh/lib/thread.c:909-949 | moves exactly the event and ready records with that argument to the unuse list, in order, and counts them |
| Scheduler.ThreadMaster.ProcessEvents | application/vtysh/lib/thread.c:1021-1037 | moves the whole event list to the end of the ready list, in order |
| Scheduler.ThreadMaster.ProcessFd | application/vtysh/lib/thread.c:974-997 | moves exactly the records whose descriptor is in the set, in list order, and clears exactly those descriptors |
| Scheduler.ThreadMaster.ProcessTimers | application/vtysh/lib/thread.c:1001-1017 | moves exactly the timers due now to the ready list, in nondecreasing expiry |
| Scheduler.ThreadMaster.FinishPass | application/vtysh/lib/thread.c:1145-1166 | what follows select is one pass of the abstract scheduler |
| Scheduler.ThreadMaster.Fetch | application/vtysh/lib/thread.c:1042-1171 | thread_fetch does what the abstract fetch does, for every sequence of outcomes of select, and hands out the data the record was filed with |
| Getopts.FindLong | application/vtysh/lib/getopt.c:647-677 | the two loops find the entry named in full, else the only one the name begins, else report none or several |
| GetoptLaws.LookupSays | application/vtysh/lib/getopt.c:654-677 | an entry is found if and only if it is the first of that very name, or there is none and it is the only one whose name begins so |
| GetoptLaws.NotFoundSays | application/vtysh/lib/getopt.c:654-677 | a name is unknown if it begins no entry, and ambiguous if it begins two and is none |
| GetoptLaws.OptionsAre | application/vtysh/lib/getopt.c:463-466 | an element goes to the front as an option if and only if it has two characters or more and begins with "-" |
| GetoptLaws.ShortSays | application/vtysh/lib/getopt.c:773-968 | what the next character of an element is and takes, by the number of colons behind its first occurrence in the option string: nothing, an optional or a required argument, in the same element or the next |
| GetoptLaws.OtherSays | application/vtysh/lib/getopt.c:783-797 | a character that is not in the option string, and ":", is an error and is passed over |
| GetoptLaws.LongSays | application/vtysh/lib/getopt.c:637-746 | "--name" and "--name=value" are looked up by the name and take the value, the next element or nothing, as has_arg says; a value that is not allowed, and a name that is unknown or ambiguous, is an error |
| GetoptLaws.OneDashIsShort | application/vtysh/lib/getopt.c:637-640 | but for getopt_long_only, an element that begins with one dash is read as short options whether or not there are long ones |
| GetoptLaws.LongOnlySays | application/vtysh/lib/getopt.c:625-640 | for getopt_long_only it is a long option where one is meant, except for a single character that is a short option, and else short options where the first is one |
| GetoptLaws.NamedSays | application/vtysh/lib/getopt.c:798-921 | with "W;", -W and a name in the same element or the next is read as the long option of that name, but for an unknown or an ambiguous one |
| Getopts.PassesItsArguments | application/vtysh/lib/getopt.c:637-968 | a call advances by exactly the element, once it is finished, and the arguments of the option as it is decoded, if and only if it has not come to a -W name that begins several long options |
| Getopts.DecodesOneOption | application/vtysh/lib/getopt.c:773-968 | a call is done with its element exactly at a long option, an option with an argument, or the last character; otherwise it reads one character, which has no argument |
| Getopts.TakenAsDocumented | application/vtysh/lib/getopt.c:463-504 | every call on an option element goes on over as much as is documented, without going astray, if and only if none of its options is a -W with an ambiguous name, a -W with a name and no long options, or one that is decoded as another option than it is documented to be and ends or takes something else |
| Getopts.ReadIsTaken | application/vtysh/lib/getopt.c:463-504 | such an element takes itself and the documented arguments of its last option over all its calls |
| Getopts.CountedAsDocumented | application/vtysh/lib/getopt.c:463-504 | without a sign, and but for getopt_long_only, the number of elements taken is the documented one, and no call goes astray, if and only if the element is such a one |
| Getopts.OnlyTheSign | application/vtysh/lib/getopt.c:487-491 | any other option than the sign is decoded by the later calls exactly as by a first one, and, for getopt_long_only at the start of an element, as documented |
| Getopts.HarmlessIf | application/vtysh/lib/getopt.c:487-491 | for getopt and getopt_long a check of the table alone, that the sign reaches as far as an option as it does without the sign in front, holds if and only if no option of any element is decoded as another one than documented |
| Getopts.SignWithoutColon | application/vtysh/lib/getopt.c:487-491 | a sign that no ":" follows and that does not come again passes this check |
| Getopts.MarksAsDocumented | application/vtysh/lib/getopt.c:463-504 | a scan of such elements never goes astray, and sends to the front exactly what the documentation says, read with the table without the sign: options with their arguments, and "--" |
| Getopts.HarmlessIsAllClear | application/vtysh/lib/getopt.c:463-504 | for getopt and getopt_long every scan is one of such elements if there is no "W;" option and the table passes the check |
| Getopts.EndsAsDocumented | application/vtysh/lib/getopt.c:473-476 | so what ends up before and behind optind is the documented partition of argv |
| Getopts.DecodeOverruns | application/vtysh/lib/getopt.c:773-968 | optind leaves argv if and only if such a name is in the last element, and a null longopts is read if and only if a -W with a name is decoded without long options |
| Getopts.AmbiguousNameOverruns | application/vtysh/lib/getopt.c:866-874 | a concrete argv on which optind ends beyond argc |
| Getopts.AmbiguousNameTakesOperand | application/vtysh/lib/getopt.c:866-874 | a concrete argv on which an operand that is nobody's argument goes to the front, where the documented partition leaves it |
| Getopts.NameNeedsTable | application/vtysh/lib/getopt.c:840-865 | a concrete argv on which a null longopts is read, and one with the same table on which it is not |
| Getopts.SignTakesOperand | application/vtysh/lib/getopt.c:412-421 | a concrete argv on which the operand is taken as the argument of a leading "+" that a ":" follows |
| Getopts.SignTakesDashes | application/vtysh/lib/getopt.c:412-421 | a concrete argv on which "--" is taken as the argument of a leading "-", and does not end the scan |
| Getopts.LongOnlyTakesOperand | application/vtysh/lib/getopt.c:637-639 | a concrete argv for getopt_long_only on which a character behind a short option is looked up as a long one and takes an operand |
| Getopts.StaysInBounds | application/vtysh/lib/getopt.c:773-968 | without a "W;" option in the first and the later calls, no call of a run leaves argv or reads a null longopts |
| Getopts.StrippedKind | application/vtysh/lib/getopt.c:412-421 | skipping the leading "-" or "+" of the first call does not change whether there is a "W;" option |
| Getopts.BottomStep | application/vtysh/lib/getopt.c:344-360 | swapping the shorter bottom segment with the far end of the top one leaves a smaller exchange with the same outcome |
| Getopts.TopStep | application/vtysh/lib/getopt.c:361-379 | the same with the shorter segment on top |
| Getopts.Getopt.SwapBlocks | application/vtysh/lib/getopt.c:351-357 | the inner loop swaps two blocks and touches nothing else |
| Getopts.Getopt.Exchange | application/vtysh/lib/getopt.c:310-387 | segments A and B become B and A for all lengths, nothing else moves, and first_nonopt and last_nonopt bound A in its new place |
| Getopts.Getopt.Initialize | application/vtysh/lib/getopt.c:395-458 | ordering and starting positions: a leading "-" returns operands in order, a leading "+" or POSIXLY_CORRECT stops at the first, and otherwise they are permuted |
| Getopts.Getopt.SetAside | application/vtysh/lib/getopt.c:557-573 | options that follow skipped operands go before them, and further operands are skipped |
| Getopts.Getopt.SkipDashes | application/vtysh/lib/getopt.c:580-592 | "--" goes before the skipped operands and everything after it is left |
| Getopts.Getopt.DecodeElement | application/vtysh/lib/getopt.c:637-968 | decoding moves optind, nextchar and optarg as the option tables say, up to a read through a null longopts |
| Getopts.Getopt.Next | application/vtysh/lib/getopt.c:517-970 | one call, on argv in place, does to the scan what the abstract call does, or leaves optind one past argc, or reads a null longopts |
| Getopts.DecodeCallKeeps | application/vtysh/lib/getopt.c:637-968 | decoding does not change where any element will end up |
| Getopts.CallKeeps | application/vtysh/lib/getopt.c:517-970 | no call changes where any element of argv will end up; the call that ends the scan has put them there |
| Getopts.CallNears | application/vtysh/lib/getopt.c:517-970 | every call that does not end the scan comes nearer its end |
| Getopts.Getopt.Run | application/vtysh/lib/getopt.c:412-970 | repeated calls end; argv is then the options with their arguments (and "--") in order followed by the operands in order, with optind at the first operand; or a call went astray, exactly when an option takes more than there is or needs long options that are not there. From a fresh start, if every element read is one that is read as documented, argv is parted as documented for the ordering that the option string and POSIXLY_CORRECT select, written out |
| Getopts.MarksAre | application/vtysh/lib/getopt.c:547-622 | when permuting, the elements that go to the front are exactly the option elements that the scan comes to, each with as many elements behind it as its options take |
| Getopts.MarksSort | application/vtysh/lib/getopt.c:547-622 | when permuting, an element goes to the front only as an option or right behind an element that does, and to the back only as an operand or after "--" |
| Getopts.OthersKeepArgv | application/vtysh/lib/getopt.c:604-614 | with the other orderings argv is left as it was |
| BitArithmetic.MaskIsRemainder | application/vtysh/lib/hash.c:121-122 | key & (size - 1) is key modulo size, for every power of two |
| BitArithmetic.AndWithPredecessor | application/vtysh/lib/hash.c:34-34 | the assertion (size & (size - 1)) == 0 accepts exactly the powers of two, among positive sizes |
| BitArithmetic.BitOfBoth | application/vtysh/lib/hash.c:34 | the bitwise operations work bit by bit |
| BitArithmetic.PowersOfTwo | application/vtysh/lib/hash.c:34 | what is accepted as a power of two is one |
| Hashes.HashTable.constructor | application/vtysh/lib/hash.c:29-45 | an empty table, which satisfies the invariant exactly if the size is not 0 |
| Hashes.HashTable.Default | application/vtysh/lib/hash.c:49-53 | an empty table of 256 chains |
| Hashes.HashTable.Linked | application/vtysh/lib/hash.c:146-151 | linking in an item of a new class at the front of its chain adds just that entry |
| Hashes.HashTable.Unlinked | application/vtysh/lib/hash.c:192-198 | unlinking a bucket removes just that entry |
| Hashes.HashTable.Matches | application/vtysh/lib/hash.c:125-130 | a bucket of the chain matches exactly if it holds the stored item of that class |
| Hashes.HashTable.MoveAll | application/vtysh/lib/hash.c:76-84 | every bucket moves to the chain that its key has in twice as many, and none is lost or doubled |
| Hashes.HashTable.TooLong | application/vtysh/lib/hash.c:91-107 | the loops decide exactly whether some chain reached the threshold or the excess over half of it is more than half the count |
| Hashes.HashTable.HopelessIf | application/vtysh/lib/hash.c:88-113 | a chain of ten calls for no further expansion, and so do more entries beyond the fifth of their chains than half of all |
| Hashes.HashTable.Expand | application/vtysh/lib/hash.c:65-108 | expansion leaves the same map in twice the chains |
| Hashes.HashTable.Get | application/vtysh/lib/hash.c:114-154 | the stored item if there is one, else the new one is added, with or without expansion; nothing changes if none is made |
| Hashes.HashTable.Lookup | application/vtysh/lib/hash.c:158-161 | the stored item of the class or NULL, with no change |
| Hashes.HashTable.Release | application/vtysh/lib/hash.c:178-206 | removes exactly the entry of that class and returns it |
| Hashes.HashTable.IteratedOne | application/vtysh/lib/thread.c:418-429 | visiting one entry, and releasing it if asked to, is one step of the iteration |
| Hashes.HashTable.Iterate | application/vtysh/lib/hash.c:210-226 | with a callback that may release the current entry, every entry is visited exactly once and exactly those not released are left |
| Hashes.HashTable.Clean | application/vtysh/lib/hash.c:230-250 | every entry is freed exactly once and the table is empty |
| Buffers.Conserved | application/vtysh/lib/buffer.c:180-570 | over every run of put, write, flush and window flush each byte is accepted, lost by a window, or held; what the descriptor accepted and what is held are together what was held at first and what was supplied, in order, if and only if no window lost a byte |
| Buffers.LineFeed | application/vtysh/lib/buffer.c:317-324 | a line feed completes a line wherever the cursor is, a carriage return only takes the cursor back |
| Buffers.TextOn | application/vtysh/lib/buffer.c:320-326 | any other text completes a line as often as it reaches the right margin, from wherever the cursor is |
| Buffers.EraseIsPrompt | application/vtysh/lib/buffer.c:251-264 | the erase string goes back over exactly the visible part of the prompt, blanks it and goes back again |
| Buffers.Buffer.constructor | application/vtysh/lib/buffer.c:70-88 | an empty buffer; the default chunk size is 4096 rounded up to whole pages |
| Buffers.Buffer.Put | application/vtysh/lib/buffer.c:180-200 | appends exactly the data, for every chunk size, and leaves no empty chunk |
| Buffers.Buffer.GetString | application/vtysh/lib/buffer.c:100-118 | the whole content and a NUL |
| Buffers.Buffer.DataSize | application/vtysh/lib/buffer.c:144-156 | the size of the content, or of the chunks before the sum would wrap around |
| Buffers.Buffer.FlushAvailable | application/vtysh/lib/buffer.c:467-534 | offers at most 16 chunks until 131072 bytes; removes exactly the prefix that writev accepted, and nothing on an error |
| Buffers.Buffer.Write | application/vtysh/lib/buffer.c:537-570 | writes directly only if nothing is held; what was not accepted is appended |
| Buffers.LongestIf | application/vtysh/lib/buffer.c:311-332 | what a window flush passes over is the longest prefix with at most that many lines if and only if nothing is left or the next character ends a line by itself |
| Buffers.NotLongest | application/vtysh/lib/buffer.c:311-332 | a concrete content on which it is not the longest |
| Buffers.FillsOnce | application/vtysh/lib/buffer.c:311-332 | the shortest prefix that fills the window is unique |
| Buffers.Buffer.FillWindow | application/vtysh/lib/buffer.c:307-357 | the loop passes over exactly the shortest prefix that completes the allowed number of lines, or everything |
| Buffers.Buffer.Unflush | application/vtysh/lib/buffer.c:402-438 | the rollback restores every chunk as it was |
| Buffers.Buffer.FreeUsed | application/vtysh/lib/buffer.c:444-450 | freeing used chunks leaves exactly the rest of the content |
| Buffers.Buffer.FlushWindow | application/vtysh/lib/buffer.c:243-459 | offers the erase string, exactly the prefix that fills the window, whose height leaves a line for the prompt, and the prompt when more is left; a retryable error changes nothing, any other answer removes the prefix; which step of a run that is |
| Buffers.WindowLoses | application/vtysh/lib/buffer.c:380-459 | a window with content loses some of it if and only if writev fails for good or accepts less than the erase string and the prefix; what counts as accepted is the content in the accepted part of the offer |
| Buffers.Buffer.Reset | application/vtysh/lib/buffer.c:129-139 | empties the buffer |
| InetChecksum.OnesSumIs | application/vtysh/lib/checksum.c:27-38 | adding words with the carry brought around is the sum modulo 0xffff, with 0xffff in place of 0 unless all words are 0 |
| InetChecksum.Example | application/vtysh/lib/checksum.c:13-47 | the numerical example of RFC 1071, section 3 |
| InetChecksum.FoldedIs | application/vtysh/lib/checksum.c:44-46 | two folds give the one's complement sum if and only if the second leaves no carry |
| InetChecksum.SmallFoldsTwice | application/vtysh/lib/checksum.c:44-46 | up to 65538 words it leaves none |
| InetChecksum.InCksum | application/vtysh/lib/checksum.c:13-47 | the complement of the one's complement sum for up to 131076 bytes, and beyond if and only if two folds are enough, in a long that holds the sum |
| InetChecksum.FitsLong | application/vtysh/lib/checksum.c:17-38 | a long of 32 bits holds the sum of up to 65537 bytes at every turn of the loop |
| InetChecksum.LongOverflows | application/vtysh/lib/checksum.c:17-38 | 65538 bytes whose sum it does not hold |
| InetChecksum.OneByteMore | application/vtysh/lib/checksum.c:44-46 | 131077 bytes on which two folds are not enough |
| InetChecksum.StoredChecksumVerifies | application/vtysh/lib/checksum.c:13-47 | the complement stored in a zeroed word makes the sum all ones |
| InetChecksum.Protect | application/vtysh/lib/checksum.c:13-47 | computing, storing and computing again gives 0 |
| Fletcher.ReductionCanWait | application/vtysh/lib/checksum.c:85-91 | reducing modulo 255 once gives the same sums as reducing at every byte |
| Fletcher.Example | application/vtysh/lib/checksum.c:49-97 | both sums of a two-byte message |
| Fletcher.BlockReduces | application/vtysh/lib/checksum.c:81-94 | a block may start from the residues of the one before |
| Fletcher.BlockFits | application/vtysh/lib/checksum.c:51-91 | no int overflows within 4102 bytes |
| Fletcher.LongerBlockOverflows | application/vtysh/lib/checksum.c:51-91 | 4103 bytes can overflow one |
| Fletcher.Sums | application/vtysh/lib/checksum.c:81-94 | the two loops compute the two sums modulo 255 |
| Fletcher.RemainderOfInt | application/vtysh/lib/checksum.c:97-97 | what the conversion to int does to the remainder |
| Fletcher.WrapsSays | application/vtysh/lib/checksum.c:97 | a value is changed by the conversion if and only if it is no int |
| Fletcher.CheckValues | application/vtysh/lib/checksum.c:97-103 | both check bytes are in 1..255, and cancel the first sum |
| Fletcher.ValidIf | application/vtysh/lib/checksum.c:97-117 | the message is valid if and only if the first check byte has the remainder it should have |
| Fletcher.Checksum | application/vtysh/lib/checksum.c:57-124 | generation changes only the two check bytes and makes the message valid if and only if the number of int wrap-arounds is a multiple of 255; validation returns 0 if and only if the message is valid, and changes nothing |
| Fletcher.ShortMessagesVerify | application/vtysh/lib/checksum.c:97-97 | no wrap-around while 254 times the distance to the end fits an int |
| Fletcher.Sign | application/vtysh/lib/checksum.c:57-124 | generate, then validate: 0 under exactly that condition |
| Fletcher.LongMessageFails | application/vtysh/lib/checksum.c:97-97 | a concrete message whose generated checksum does not validate |
| Fletcher.OffsetAssertion | application/vtysh/lib/checksum.c:71 | the assertion on the offset holds if and only if there is room for two bytes behind it, or the length is 0 |
| Fletcher.NoLengthPasses | application/vtysh/lib/checksum.c:71 | with a length of 0 it holds for every offset |
| Md5.Context.constructor | application/vtysh/lib/md5.c:138-147 | the initial state |
| Md5.PaddedSays | application/vtysh/lib/md5.c:173-205 | the padded message is the message, a byte 0x80, the fewest zeros that make room for eight bytes at the end of a block, and the number of bits in these, low-order byte first |
| Md5.EncodeSays | application/vtysh/lib/md5.c:207-232 | the digest is the four words of the state, each low-order byte first |
| Md5.InitSays | application/vtysh/lib/md5.c:138-147 | the initial words are the bytes of RFC 1321, section 3.3 |
| Md5.FoldSays | application/vtysh/lib/md5.c:149-171 | each further block is compressed into the state that the blocks before it give |
| Md5.ShortDigest | application/vtysh/lib/md5.c:173-205 | a message of up to 55 bytes is one block |
| Md5.HmacSays | application/vtysh/lib/md5.c:304-373 | the two keys of HMAC are the zero-padded key xored with 0x36 and with 0x5c, and the digests are nested in that order |
| Md5.XorSays | application/vtysh/lib/md5.c:352-355 | the exclusive or works bit by bit and undoes itself |
| Md5.Context.Loop | application/vtysh/lib/md5.c:149-171 | however the message is split over calls, whole blocks are folded into the state and the rest is in the buffer |
| Md5.Context.Pad | application/vtysh/lib/md5.c:173-205 | the state becomes that of the message padded as RFC 1321, sections 3.1 and 3.2, say |
| Md5.Context.Final | application/vtysh/lib/md5.c:173-223 | the digest of everything fed, in one message |
| Md5.HmacMd5 | application/vtysh/lib/md5.c:304-373 | the formula of section 2 of RFC 2104, for every key length |
| Jhash.AddTail | application/vtysh/lib/jhash.c:72-97 | the switch whose cases fall through adds the zero-padded words of the rest |
| Jhash.Unmixed | application/vtysh/lib/jhash.c:28-39 | mixing is undone by these steps in reverse, so that no two states mix to the same |
| Jhash.ShortHash | application/vtysh/lib/jhash.c:45-102 | what is mixed for a key of 11 bytes, byte by byte |
| Jhash.LongHash | application/vtysh/lib/jhash.c:45-102 | what is mixed for each block of 12 bytes, byte by byte |
| Jhash.WordsSay | application/vtysh/lib/jhash.c:28-39 | the word operations on bits and at their limits |
| Jhash.JHash | application/vtysh/lib/jhash.c:45-102 | the hash of the bytes in blocks of 12, with the length in the low byte of the last word |
| Jhash.ExpandedWord | application/vtysh/lib/jhash.c:52-62 | a word is the little-endian word of its four bytes |
| Jhash.JHash2 | application/vtysh/lib/jhash.c:108-139 | for every word array, the same as the bytewise hash of its little-endian bytes, with every tail |
| Prefixes.PrefixBit | application/vtysh/lib/prefix.c:176-182 | bit i of the address, counting from the most significant |
| Prefixes.AddressBitSays | application/vtysh/lib/prefix.c:176-182 | bit i of an address is bit 7 - i % 8 of byte i / 8 |
| Prefixes.AgreeByBytes | application/vtysh/lib/prefix.c:230-242 | comparing whole bytes and the masked next one compares exactly the first bits |
| Prefixes.Match | application/vtysh/lib/prefix.c:217-242 | 1 if and only if n is no longer than p and the first n.prefixlen bits agree |
| Prefixes.AgreeMasked | application/vtysh/lib/prefix.c:306-330 | addresses agree on n bits if and only if they are equal once masked |
| Prefixes.Compare | application/vtysh/lib/prefix.c:306-330 | 0 if and only if family, length and masked addresses are equal |
| Prefixes.CommonBits | application/vtysh/lib/prefix.c:339-370 | the length of the longest common bit prefix, or -1 |
| Prefixes.MaskedBits | application/vtysh/lib/prefix.c:596-615 | masking keeps the first n bits and clears all others |
| Prefixes.MaskedTwice | application/vtysh/lib/prefix.c:596-615 | masking twice is masking once |
| Prefixes.ApplyMask6 | application/vtysh/lib/prefix.c:596-615 | the loop masks the address in place, for every prefix length |
| Prefixes.Masklen2Ip6 | application/vtysh/lib/prefix.c:589-593 | the mask of that many bits |
| Prefixes.NetmaskBits | application/vtysh/lib/prefix.c:35-166 | bit i of a row of the table is set if and only if i is less than the row number |
| Prefixes.Ip6Masklen | application/vtysh/lib/prefix.c:562-586 | the full bytes, and the bits up to the last one set in the next; the length of every mask |
| Prefixes.ExtentSays | application/vtysh/lib/prefix.c:562-586 | the extent of a byte is where its last set bit ends |
| Prefixes.RoundTrip6 | application/vtysh/lib/prefix.c:562-593 | length to mask and back |
| Ipv4Masks.Masklen2Ip | application/vtysh/lib/prefix.c:454-466 | the shift gives the mask of that many bits |
| Ipv4Masks.NetmaskSays | application/vtysh/lib/prefix.c:454-466 | the mask of n bits is n ones and then zeros |
| Ipv4Masks.IpMasklen | application/vtysh/lib/prefix.c:471-480 | the number of leading ones of any mask |
| Ipv4Masks.AndHigh | application/vtysh/lib/prefix.c:484-489 | and-ing with a mask clears the low bits |
| Ipv4Masks.ApplyMask4 | application/vtysh/lib/prefix.c:484-489 | masking rounds the address down to its network |
| Ipv4Masks.NetworkIs | application/vtysh/lib/prefix.c:484-489 | that keeps the leading bits and clears the others |
| Ipv4Masks.NetworkTwice | application/vtysh/lib/prefix.c:484-489 | masking twice is masking once |
| Ipv4Masks.RoundTrip4 | application/vtysh/lib/prefix.c:454-480 | length to mask and back |
| Streams.ValueOfEncoded | application/vtysh/lib/stream.c:307-602 | what a typed put writes, a typed get of that width reads back |
| Streams.EncodedSays | application/vtysh/lib/stream.c:528-602 | the bytes that a typed put writes, highest first |
| Streams.ValueSays | application/vtysh/lib/stream.c:307-499 | the number that a typed get makes of any bytes |
| Streams.ForwardedOrder | application/vtysh/lib/stream.c:276-287 | the same of the positions alone: the condition on the arguments under which the order is kept |
| Streams.ForwardBreaksOrder | application/vtysh/lib/stream.c:276-287 | concrete positions at which endp falls behind getp |
| Streams.ForwardedSays | application/vtysh/lib/stream.c:262-287 | a move that does not wrap is made exactly up to the limit |
| Streams.AccessIsInside | application/vtysh/lib/stream.c:34-38 | the bound test of an access at a position lets only bytes before endp through, if and only if the 64-bit sum does not wrap or the wrapped one is rejected |
| Streams.LastPositionIsOutside | application/vtysh/lib/stream.c:34-38 | a concrete position outside the data that passes the test for every endp |
| Streams.HugePutPutsNothing | application/vtysh/lib/stream.c:73-82 | a concrete length that is not cut off, because its sum wraps, and after which nothing is written |
| Streams.AcceptedSays | application/vtysh/lib/stream.c:504-524 | a put takes everything if and only if it fits, and else what fits, unless the 64-bit sum wraps |
| Streams.AppendedSays | application/vtysh/lib/stream.c:504-524 | what is appended stands behind the old end, and every other byte where it was |
| Streams.WrittenIsThere | application/vtysh/lib/stream.c:605-675 | what was put at a position is read back there, and every other byte is as it was |
| Streams.Stream.constructor | application/vtysh/lib/stream.c:90-115 | an empty stream |
| Streams.Stream.CopyFrom | application/vtysh/lib/stream.c:129-142 | positions and content of the source |
| Streams.Stream.Dup | application/vtysh/lib/stream.c:145-155 | a new stream with the same positions and content |
| Streams.Stream.Dupcat | application/vtysh/lib/stream.c:158-174 | s1 up to the offset, then s2, then the rest of s1 |
| Streams.Stream.Resize | application/vtysh/lib/stream.c:177-198 | content kept as far as it fits, positions pulled in, getp <= endp <= size, for a new size of 0 too |
| Streams.Stream.SetGetp | application/vtysh/lib/stream.c:223-234 | never beyond endp |
| Streams.Stream.SetEndp | application/vtysh/lib/stream.c:237-258 | only between getp and size |
| Streams.Stream.ForwardGetp | application/vtysh/lib/stream.c:262-273 | only up to endp, and forward if and only if the 64-bit sum does not wrap or the wrapped one is rejected |
| Streams.Stream.ForwardEndp | application/vtysh/lib/stream.c:276-287 | only up to size; getp <= endp <= size still holds if and only if the 64-bit sum does not wrap, or the wrapped one is rejected or not before getp |
| Streams.Stream.Get | application/vtysh/lib/stream.c:291-303 | the next bytes unread, all or none |
| Streams.Stream.Put | application/vtysh/lib/stream.c:504-524 | appends the bytes or zeros, cut off at the end of the data; nothing if the 64-bit sum wraps and the wrapped one fits |
| Streams.Stream.Putc | application/vtysh/lib/stream.c:528-540 | appends a byte, or changes nothing and returns 0 |
| Streams.Stream.PutcAt | application/vtysh/lib/stream.c:605-618 | whether the position test, a 64-bit sum, keeps the access inside the data; if so, overwrites a byte before endp, or changes nothing and returns 0 |
| Streams.Stream.Getc | application/vtysh/lib/stream.c:307-321 | reads and passes a byte, or changes nothing and returns 0 |
| Streams.Stream.GetcFrom | application/vtysh/lib/stream.c:325-340 | whether the position test, a 64-bit sum, keeps the access inside the data; if so, reads a byte anywhere before endp, or returns 0 |
| Streams.Stream.Putw | application/vtysh/lib/stream.c:544-558 | appends the 2 bytes in network order, or changes nothing and returns 0 |
| Streams.Stream.PutwAt | application/vtysh/lib/stream.c:621-635 | whether the position test, a 64-bit sum, keeps the access inside the data; if so, overwrites the 2 bytes in network order before endp, or changes nothing and returns 0 |
| Streams.Stream.Getw | application/vtysh/lib/stream.c:344-360 | reads and passes the next 2 bytes in network order, or changes nothing and returns 0 |
| Streams.Stream.GetwFrom | application/vtysh/lib/stream.c:364-380 | whether the position test, a 64-bit sum, keeps the access inside the data; if so, reads the 2 bytes in network order anywhere before endp, or returns 0 |
| Streams.Stream.Putl | application/vtysh/lib/stream.c:562-578 | appends the 4 bytes in network order, or changes nothing and returns 0 |
| Streams.Stream.PutlAt | application/vtysh/lib/stream.c:638-653 | whether the position test, a 64-bit sum, keeps the access inside the data; if so, overwrites the 4 bytes in network order before endp, or changes nothing and returns 0 |
| Streams.Stream.Getl | application/vtysh/lib/stream.c:405-423 | reads and passes the next 4 bytes in network order, or changes nothing and returns 0 |
| Streams.Stream.GetlFrom | application/vtysh/lib/stream.c:384-402 | whether the position test, a 64-bit sum, keeps the access inside the data; if so, reads the 4 bytes in network order anywhere before endp, or returns 0 |
| Streams.Stream.Putq | application/vtysh/lib/stream.c:582-602 | appends the 8 bytes in network order, or changes nothing and returns 0 |
| Streams.Stream.PutqAt | application/vtysh/lib/stream.c:656-675 | whether the position test, a 64-bit sum, keeps the access inside the data; if so, overwrites the 8 bytes in network order before endp, or changes nothing and returns 0 |
| Streams.Stream.Getq | application/vtysh/lib/stream.c:452-474 | reads and passes the next 8 bytes in network order, or changes nothing and returns 0 |
| Streams.Stream.GetqFrom | application/vtysh/lib/stream.c:427-449 | whether the position test, a 64-bit sum, keeps the access inside the data; if so, reads the 8 bytes in network order anywhere before endp, or returns 0 |
| Streams.Stream.RoundTrip | application/vtysh/lib/stream.c:307-602 | any sequence of typed puts that fits is undone by the same sequence of typed gets |
| Parsing.TooLargeIs | application/vtysh/lib/parse.c:41-73 | the check before each digit is exactly whether ten times the value plus the digit exceeds the maximum |
| Parsing.NumberOfSpelled | application/vtysh/lib/parse.c:99-112 | the decimal spelling of every number is digits, and they stand for that number |
| Parsing.VerdictSays | application/vtysh/lib/parse.c:99-112 | reading from the left, the first thing that is wrong decides the error |
| Parsing.Accumulate | application/vtysh/lib/parse.c:99-112 | the loop finds the number, or the first thing wrong, and no wrap-around touches the accumulator |
| Parsing.Negation | application/vtysh/lib/parse.c:114-115 | complement and increment negate, at the smallest value too |
| Parsing.ParseSigned | application/vtysh/lib/parse.c:417-461 | RT_OK if and only if the string is an optional sign and digits for a number in range (and there is a pointer if one is needed), and then exactly that number is stored; else which error |
| Parsing.RangesAre | application/vtysh/lib/parse.c:417-461 | the ranges of the four widths, in numbers |
| Parsing.SignedSays | application/vtysh/lib/parse.c:417-461 | a spelled number stands for itself with "+" or without a sign, and for its negative with "-" |
| Parsing.ParseUnsigned | application/vtysh/lib/parse.c:465-496 | the same without a sign |
| Parsing.JoinOfParts | application/vtysh/lib/parse.c:173-209 | joining the parts between the dots gives the string back |
| Parsing.DottedParts | application/vtysh/lib/parse.c:173-209 | the parts of a string are these four octets if and only if it is these octets joined by dots |
| Parsing.DottedQuad | application/vtysh/lib/parse.c:160-221 | four spelled numbers with dots between them are accepted if and only if each is at most 255, and stored with the first in the lowest byte |
| Parsing.ParseOctet | application/vtysh/lib/parse.c:173-192 | accepts exactly a non-empty decimal number of at most 255 before the next dot |
| Parsing.ParseIp | application/vtysh/lib/parse.c:160-221 | RT_OK if and only if there are exactly four such octets, which are then stored in network order |

## Left out

- Scheduler.ThreadMaster: the five embedded `thread_list` structs are one value field, because nothing else points at them; the function pointer, master pointer and bookkeeping of a record are not kept, and the payload union is a datatype.
- Scheduler.ThreadMaster.Fetch: the two places where the loop looks for a ready record are one; how long `select` may block, signal handlers, exceptional descriptors and SNMP are not modelled, and the reported descriptors are those waited on.
- Scheduler: clock reads, usage statistics, `thread_call`, `thread_execute` and freeing a master; allocation always succeeds.
- Pqueues.Pqueue: the comparison and update callbacks are those of thread.c, and the `void *` nodes are thread records.
- Getopts: error messages, `optopt`, `longind`, flag variables and the `_LIBC` parts; whether a missing argument is returned as ":" or "?", which goes by the first option character; what is returned for an option is its character or its table index.
- Getopts.Safe: what later calls do once optind has left argv or a null longopts has been read, which the language leaves undefined.
- Hashes.HashTable: a chain is a sequence of buckets and not a list of pointers, so aliasing between buckets is not captured; `string_hash_make` is not needed for the table.
- Hashes.HashTable.Get: the item that the allocation callback makes must be equal to the one looked for, which the code relies on and does not test.
- Hashes.HashTable.Iterate: the callback is the one of `cpu_record_clear`; one that releases other entries is not covered.
- Buffers.Buffer: the list of chunks is a sequence; `buffer_flush_all`, whose progress depends on errno, and more than one batch of writev are left out.
- Buffers.Buffer.FlushWindow: the sizing of the iovec array, which has no effect on what is offered.
- Md5: the rounds of the compression function and the copies for big-endian machines.
- Jhash: the fixed-size forms `jhash_1word`, `jhash_2words` and `jhash_3words`.
- Prefixes: conversions from and to strings and socket addresses.
- Streams: reads from and writes to descriptors, IPv4 and prefix puts, and the stream fifo.
- Parsing: MAC addresses, the wildcard-mask parser and everything built on `inet_pton` or `sprintf`.
- The command-line parts of the library (`command.c`, `filter.c`, `if_rmap.c`), its other lists and its system call wrappers.
