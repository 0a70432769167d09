# Verified models of three C++ components

The project models, and proves properties of, three components of the repository:

1. `DBReader` (src/double-buffer): one loader thread fills the spare one of two buffers and
   switches buffers by four separate writes; one reader takes records with `next` or
   `batch_fetch`. It is a labelled transition system with a program counter for each thread, one
   shared write a step, two mutexes and two condition variables, and a class whose methods execute
   one statement in place and refine the system's steps.
2. `Wildcard` (src/wildcard): a backtracking glob matcher with nested `{a,b}` groups that commits
   to the first alternative that consumes something. The three mutually recursive loops are
   methods; they compute a function on the syntax tree, and that function is compared with a
   declarative meaning (strict glob, brace expansion).
3. Shell quoting of flags (src/client, src/demo/cmdline-parser): a printer made of four replacement
   passes, against a lexer for the quoting rules of sections 2.2.1 to 2.2.3 of the POSIX Shell
   Command Language.

`dafny verify dfyconfig.toml` checks the whole project.

## What is assumed, and what was found

**The protocol.** Atomics are sequentially consistent. What else threads can see is split:
`_ridx >= _rest` is two loads in either order, `has_next` reads emptiness and later `_eof`, `next`
raises `_ridx` in one step and moves the record out in a later one, and `batch_fetch` moves slot by
slot and publishes afterwards. One thing is not: `next` loads `_buff_idx` in the step that raises
`_ridx`. C++17 loads it first; before, the order of the two is open, and a load that came second
could see the next buffer. Under that granularity three statements of the source's comments
(db_reader.cpp:89-92, that the instruction sequence gives mutual exclusion) do not hold as written,
and the model says exactly when they do:

- db_reader.cpp:59 frees the slot before the record has left it. When the take drains the buffer
  the loader may switch, come round and overwrite the slot. A database's entries are distinct, and
  then every run delivers a prefix of the source if and only if `next` is never called or there
  are fewer than three full batches (`EveryRunDeliversExact`; `TornTake` is a run that goes wrong,
  for each of the other configurations). On a single run, delivery is right if and only if no
  overwritten record was moved out (`DeliveryExact`), which `batch_fetch`, takes that leave a record
  behind and uninterrupted takes never do (`SafeDelivery`, `OnlyDrainingTakes`).
- `has_next` reads emptiness and `_eof` apart, so it can say "no more" just as the last buffer is
  published, and "more" after the last record: when `_eof` is still to be written, or when it combines
  loads of an empty source from before and after its only switch. What an idle reader can be told
  next, alone or within `next` and `batch_fetch`, is `ToldExact`; when an answer is right is
  `TrueExact` and `EndOfDataExact`. For every source but the empty one some run ends too early
  (`FalseEndExact`).
- A call that is let in after the last record never returns; any other returns on every schedule that
  is not cut short (`LetInExact`, `CallReturnsExact`, `MayHangExact`), and every configuration has a
  run that gets there (`HangsAfterTheLast`). The reader has everything then; one that sleeps with a
  record due is always woken (`SleeperIsWoken`).

**The matcher.** A failure result of a nested group passes the test at wildcard_match.cpp:116 and
moves the index backwards. The only precondition, `Safe`, says that the match does not come to a
group in which a nested one is open, or not closed before the next `/`. It holds of every content if
no group has such a group nested in it (`WellNestedSafe`). Groups that are not nested may be left
open. For every pattern the matcher accepts exactly the commit-first relation of
`WildcardCommit.dfy` (`AcceptsExact`). Committing to the first alternative can lose a match. Call a
group a code if no expansion of it is empty or a proper prefix of another one. Of any pattern, every
group, nested ones included, loses nothing in any context if and only if every group is a code
(`CommitExact`); a context is any pattern around the group, before, after and enclosing it, whose
other groups are codes. A single group loses nothing if and only if it is a code and the matcher
consumes each of its expansions when that is the whole content (`GroupExact`); if only codes are
nested in it, being a code is enough (`CodeExact`). The three ways to fail have a witness each:
`CommitLoses`, `EmptyLoses`, `NestedLoses`.

**The quoting.** The four passes interact at backslashes: the shell reads the quoted value back if
and only if the value has no single quote, or has an even number of backslashes before every `"`,
`` ` ``, `$`, newline, and at the end (`RoundTripExact`), and a whole fragment if and only if that
holds of every value (`FlagsExact`). The lexer tells how each character is quoted, so that the values
are known to come back quoted, not only unchanged: a bare brace, say, would be expanded by Bash.

## Layout

- `Options.dfy`: the optional value.
- `DoubleBuffer.dfy`: states, labels, steps and runs. `DoubleBufferInvariant.dfy`: the inductive
  invariant. `DoubleBufferSafety.dfy`: what holds of every run. `DoubleBufferProgress.dfy`:
  completion. `DoubleBufferRuns.dfy`: runs built round by round. `DoubleBufferRaces.dfy`: when
  delivery goes wrong. `DoubleBufferOutcomes.dfy`: what calls return.
  `DoubleBufferCalls.dfy`: what has_next may say, and when calls return. `DBReader.dfy`: the class.
- `WildcardPattern.dfy`: text and syntax trees. `WildcardSemantics.dfy`: meaning, and the function
  the matcher computes. `WildcardCodes.dfy`: when committing loses nothing. `WildcardCommit.dfy`: the
  function as a relation. `WildcardMatch.dfy`: the loops. `Wildcard.dfy`: the entry points.
- `ShellWords.dfy`: the lexer. `ShellQuoting.dfy`: quoting one value. `Flags.dfy`: the fragment.

## Model

| member | source | states |
|---|---|---|
| DoubleBufferInvariant.StepInv | src/double-buffer/db_reader.cpp:48-111 | every step of either thread keeps the invariant: locks, loader and reader phases, current and stale loads, owed notifies, record accounts and slot contents |
| DoubleBufferInvariant.InitInv | src/double-buffer/db_reader.cpp:28-46 | the constructed reader satisfies the invariant for every buffer size above 0 and every source, the empty one included |
| DoubleBufferSafety.ExactlyOnceInOrder | src/double-buffer/db_reader.cpp:48-111 | in every interleaving: delivered, record in transit, unread slots, staged slots and iterator remainder, read in this order, are the tagged source, unless a record in transit was overwritten |
| DoubleBufferSafety.SwitchFacts | src/double-buffer/db_reader.cpp:94-98 | both asserts of the loader and that of `next` hold on every run, and the switch starts only with `_ridx` == `_rest` == `_buff_size` > 0 |
| DoubleBufferSafety.Batches | src/double-buffer/db_reader.cpp:71-107 | the k-th published batch is source[k*size .. min((k+1)*size, n)], as long as no overwritten record was moved out; a finished loader has switched ceil(n/size) times, once if the source is empty, on every run |
| DoubleBufferSafety.SlotOwnership | src/double-buffer/db_reader.h:109-121 | while the reader is in its region, slot-by-slot copying included, the loader is not switching and stores only into the other buffer |
| DoubleBufferSafety.SplitLoadsSafe | src/double-buffer/db_reader.h:70-72 | with two separate loads in either order the loader never concludes "empty" while a record is unread, and the waiting reader never "non-empty" of an empty buffer |
| DoubleBufferSafety.NoLostWakeUp | src/double-buffer/db_reader.cpp:53-65 | a reader asleep beside a non-empty buffer is owed a notify by the loader, a loader asleep beside an empty one by the reader, and the two never sleep together |
| DoubleBufferSafety.DrainingTakeNotifies | src/double-buffer/db_reader.cpp:62-65 | the test after a take never skips the notify that a sleeping loader is owed |
| DoubleBufferSafety.SleeperIsWoken | src/double-buffer/db_reader.cpp:83-107 | a reader asleep with records due is woken by every schedule of the loader alone within a computed number of steps, and until then the loader can move |
| DoubleBufferSafety.HungForGood | src/double-buffer/db_reader.cpp:53-65 | a call past has_next after the last record stays where it is on every continuation, spurious wake-ups included; the delivered records are the source, as long as no overwritten record was moved out |
| DoubleBufferSafety.SleepsAfterLastNotify | src/double-buffer/db_reader.cpp:98-109 | a reader asleep after the loader's last notify has been delivered n records and is such a call |
| DoubleBufferSafety.HasNextNowExact | src/double-buffer/db_reader.h:60-62 | has_next observed at once, between takes, is true exactly if a record is undelivered or the last `_eof` write is pending; false implies that the whole source was delivered, as long as no overwritten record was moved out |
| DoubleBufferSafety.JoinReturns | src/double-buffer/db_reader.h:44-48 | once `_eof` is set every schedule of the loader alone is finite and ends with the loader finished, so the join returns |
| DoubleBufferOutcomes.JoinAfterNo | src/double-buffer/db_reader.h:44-48 | so it does after any call that was answered "no more" or threw, right or wrong |
| DoubleBufferOutcomes.CallsAccount | src/double-buffer/db_reader.cpp:48-67 | on every run: between calls, what the calls returned accounts for the delivered records one by one, the record of each `next` and the number of each `batch_fetch`; a "no more" was only said with `_eof` set |
| DoubleBufferOutcomes.CallContract | src/double-buffer/db_reader.h:102-124 | from a call by an idle reader to its return, whatever the loader does: one outcome of the kind of the call; has_next and a throw deliver nothing, `next` exactly the record it returns, `batch_fetch` as many records as it returns, at least one; a prefix of the source unless an overwritten record was moved out |
| DoubleBufferOutcomes.BatchFetchCounts | src/double-buffer/db_reader.h:115-123 | from the span taken to the return: the value is the number of records unread then, positive, and as many were delivered |
| DoubleBufferRaces.DeliveryExact | src/double-buffer/db_reader.cpp:59 | for distinct entries, of every single run: the delivered records are a prefix of the source if and only if no record was moved out of an overwritten slot |
| DoubleBufferRaces.EveryRunDeliversExact | src/double-buffer/db_reader.cpp:48-111 | for distinct entries: all runs deliver a prefix of the source if and only if `next` is never called or n < 3 * size |
| DoubleBufferRaces.OnlyDrainingTakes | src/double-buffer/db_reader.cpp:59 | only the take of the last slot of a full buffer can be overwritten, and only by a later round filling that buffer |
| DoubleBufferRaces.SafeDelivery | src/double-buffer/db_reader.cpp:48-67 | a schedule with `batch_fetch` only, or with uninterrupted takes, or any schedule if n < 3 * size, delivers a prefix of the source, and all of it once some call was answered "no more" and the buffer is drained |
| DoubleBufferRaces.TornTake | src/double-buffer/db_reader.cpp:59 | for every size and every n >= 3 * size, a run in which the last record of the first batch is lost and the last one of the third is delivered in its place |
| DoubleBufferRaces.FalseEndOfData | src/double-buffer/db_reader.h:60-62 | for every non-empty source and each kind of call, a run in which the call answers "no more", or throws, with the whole last batch unread |
| DoubleBufferRaces.FalseEndExact | src/double-buffer/db_reader.h:60-62 | some run has such an answer with a record due if and only if the source is not empty |
| DoubleBufferCalls.TrueExact | src/double-buffer/db_reader.h:60-62 | when has_next says "more", to the application or within next and batch_fetch, it is right unless the loads are of an empty source, or `_eof` is still to be written after the drained last batch; and wrong there |
| DoubleBufferCalls.EndOfDataExact | src/double-buffer/db_reader.h:60-62 | when it says "no more", by its answer or by a throw, `_eof` is set, and it is right if and only if the buffer is still empty then |
| DoubleBufferCalls.CallReturnsExact | src/double-buffer/db_reader.cpp:48-67 | a call past has_next never returns, on any continuation, if and only if everything was delivered; it returns on every schedule of progress steps that is not cut short if and only if a record is due |
| DoubleBufferCalls.LetInExact | src/double-buffer/db_reader.h:60-62 | at the branch that lets a call in: the call never returns if has_next's "more" is one of the two wrong ones, and always returns if not |
| DoubleBufferCalls.ToldExact | src/double-buffer/db_reader.h:60-62 | of an idle reader, exactly what has_next may say in its next call, alone or within next and batch_fetch: "more" if and only if a record is due or one of the two wrong cases is ahead; "no more" if and only if none is due, or the buffer is drained and the next batch is the last |
| DoubleBufferCalls.MayHangExact | src/double-buffer/db_reader.cpp:98-100 | of an idle reader: its next call can come to wait for ever if and only if everything is delivered and it can be told "more": `_eof` is still to be written, or the source is empty and the loader's switch is ahead |
| DoubleBufferCalls.HangsAfterTheLast | src/double-buffer/db_reader.cpp:98-100 | every configuration has a run to such a state, with everything delivered |
| DoubleBufferProgress.ProgressStep | src/double-buffer/db_reader.cpp:48-111 | every step but a spurious wake-up, with calls only while records are due, decreases one measure on undelivered, unpublished and unfetched records and the two positions |
| DoubleBufferProgress.NotStuck | src/double-buffer/db_reader.cpp:48-111 | while a record is due some such step is possible |
| DoubleBufferProgress.Completion | src/double-buffer/db_reader.cpp:48-111 | every such schedule has at most 53 n + 49 steps; one that cannot be continued has delivered n records, those of the source unless an overwritten one was moved out, and has ended the loader after ceil(n/size) switches, one for an empty source |
| DoubleBufferProgress.StoppedRun | src/double-buffer/db_reader.cpp:48-111 | from every state some schedule of such steps runs until no more are possible |
| DBReaderObject.DBReader.Create | src/double-buffer/db_reader.cpp:28-46 | an exception exactly for size 0; else two fresh buffers and the initial state |
| DBReaderObject.DBReader.FillStatement | src/double-buffer/db_reader.cpp:72-87 | one statement of filling and waiting, in place, is the loader's step of the protocol |
| DBReaderObject.DBReader.SwitchStatement | src/double-buffer/db_reader.cpp:94-100 | one write of the switch, with its assert, is the loader's step of the protocol |
| DBReaderObject.DBReader.TakeStatement | src/double-buffer/db_reader.cpp:58-62 | one statement of `next` or `batch_fetch` inside its region is the reader's step, and returns the record moved out and what the call returns |
| DBReaderObject.DBReader.Step | src/double-buffer/db_reader.cpp:48-111 | any enabled statement takes the object's abstract state to the protocol's next state, keeps the invariant, and returns exactly what is appended to the delivered records and to the outcomes |
| DBReaderObject.DBReader.Follow | src/double-buffer/db_reader.cpp:48-111 | the object follows any schedule as far as it is enabled and ends in the state of that run; on a safe schedule the records that come out continue a prefix of the source |
| WildcardPattern.GroupClose | src/wildcard/wildcard_match.cpp:69-93 | a group is read exactly to the brace that counting nesting depth finds; an open group and an open nested group are told apart |
| WildcardPattern.ParseExact | src/wildcard/wildcard_match.cpp:22-142 | a pattern without open groups is read as the one plain tree that prints as its text |
| WildcardMatch.MatchElement | src/wildcard/wildcard_match.cpp:97-142 | the scan returns the end of the alternative and what it consumes, 0 after any mismatch, or (-1, -1) if the text ends or `/` comes first |
| WildcardMatch.MatchBracket | src/wildcard/wildcard_match.cpp:69-93 | returns the position just past the matching brace, the same for every content, and the length consumed by the first alternative that consumes anything, or 0 |
| WildcardMatch.MatchStar | src/wildcard/wildcard_match.cpp:28-41 | for every pattern after the star: true if and only if some text without a slash, up to and including the whole segment, can be the star's and the rest of the pattern matches the rest |
| WildcardMatch.Match | src/wildcard/wildcard_match.cpp:22-65 | the loop, its early exits and its tail loop compute the matching function; the fall-through to a literal brace is never reached |
| WildcardMatch.WellNestedSafe | src/wildcard/wildcard_match.cpp:108-118 | if every group nested in another one is closed before the next `/`, the matcher never moves its index backwards, whatever the content |
| WildcardCommit.AcceptsExact | src/wildcard/wildcard_match.cpp:22-142 | for every pattern, codes or not: the matcher accepts exactly the contents in the commit-first relation, in which a group takes what its first alternative takes that takes anything, a star any text without a slash, and only stars and slashes may be left over |
| WildcardCommit.AltsLenExact | src/wildcard/wildcard_match.cpp:69-93 | the length a group consumes is that of the alternative of least index that consumes anything |
| WildcardCommit.ElemRunExact | src/wildcard/wildcard_match.cpp:97-142 | what an alternative consumes, nested groups included, in the same relation |
| WildcardSemantics.Sound | src/wildcard/wildcard_match.cpp:22-142 | whatever matches is matched by a brace-free expansion with a non-empty choice for every group at every level, followed by a skipped tail of stars and slashes |
| WildcardCodes.Complete | src/wildcard/wildcard_match.cpp:69-142 | if no expansion of any group is empty or a proper prefix of another one, whatever some expansion matches is matched |
| WildcardCodes.MatchesExact | src/wildcard/wildcard_match.cpp:22-142 | for such patterns the matcher accepts exactly the declarative meaning |
| WildcardCodes.CommitExact | src/wildcard/wildcard_match.cpp:83-88 | of any pattern: every group, nested ones included, loses no match in any context if and only if every group is a code |
| WildcardCodes.GroupExact | src/wildcard/wildcard_match.cpp:69-142 | of any group: committing in it loses no match in any context, text before and after it and groups around it included, if and only if it is a code and each expansion is consumed whole when it is the whole content |
| WildcardCodes.CodeExact | src/wildcard/wildcard_match.cpp:83-88 | of a group in which only codes are nested: it loses no match in any context if and only if it is a code itself |
| WildcardCodes.ElemOverruns | src/wildcard/wildcard_match.cpp:97-142 | if more content changes what an alternative consumes, it has an expansion that goes beyond the shorter content |
| WildcardEntry.CommitLoses | src/wildcard/wildcard_match.cpp:83-88 | `{a,ab}c` does not match `abc`, one of its expansions |
| WildcardEntry.EmptyLoses | src/wildcard/wildcard_match.cpp:83-88 | `a{,b}` does not match `a`, one of its expansions |
| WildcardEntry.NestedLoses | src/wildcard/wildcard_match.cpp:83-88 | `{{a,ab}c}` does not match `abc`, one of its expansions, though the outer group is a code; the inner one is not |
| WildcardEntry.BraceFreeExact | src/wildcard/wildcard_match.cpp:22-65 | without braces: a match if and only if the pattern is q ++ t, q strictly globs the content and t is made of stars and slashes |
| WildcardEntry.SlashesConsumed | src/wildcard/wildcard_match.h:28-35 | on a match the slashes of the content are those of the pattern less those of the skipped tail |
| WildcardEntry.Wildcard.Match | src/wildcard/wildcard_match.h:28-31 | the entry point: the commit-first relation for every pattern, sound, exact for prefix codes and for brace-free patterns; on a match the slashes of the content and of the skipped tail are `seg_num` |
| WildcardEntry.Wildcard.SegNum | src/wildcard/wildcard_match.h:33-35 | the number of occurrences of `/` in the pattern |
| ShellQuoting.DomainIsPaired | src/client/utils.cpp:48-56 | the domain, counted by runs of backslashes, is the same as pairing backslashes from the left |
| ShellQuoting.EscapeCons | src/client/utils.cpp:52-54 | the three single-character passes amount to one, and leave each other's output alone |
| ShellQuoting.PassesAreOne | src/client/utils.cpp:52-55 | the four passes, one after the other over the whole value, amount to one pass from the left over marks and pairs of backslashes |
| ShellQuoting.PairedReadBack | src/client/utils.cpp:52-56 | inside double quotes the shell reads a paired value back, whatever follows |
| ShellQuoting.UnpairedMisread | src/client/utils.cpp:52-56 | an unpaired value is read as a word that does not begin with it, or as no word list at all |
| ShellQuoting.RoundTripExact | src/client/utils.cpp:48-56 | if the value is in the domain the shell reads one word, the value, every character in single quotes, or in double quotes if it has a single quote; if not, it reads another text, or none |
| ShellQuoting.InverseEscapeString | src/client/utils.cpp:31-57 | the function with its four replacements produces the single-pass text, proved against the round trip |
| CommandFlags.FlagsExact | src/demo/cmdline-parser/cmdline_parser.cpp:479-500 | for a plain flag and a blank or plain separator the shell reads exactly the intended words, the characters of values quoted and those of flag and separator bare, if and only if every value is in the domain |
| CommandFlags.FlagsRead | src/demo/cmdline-parser/cmdline_parser.cpp:479-500 | the same more sharply: if a value is outside the domain even the texts of the words read are not the intended ones, however quoted, or nothing is read |
| CommandFlags.Flags | src/demo/cmdline-parser/cmdline_parser.cpp:479-500 | the function that quotes the values in a loop and joins them, proved against the same statement |

## Left out

- Weak memory orders, real threads, mutexes and RocksDB objects: atomics are sequentially
  consistent, a notify wakes the one possible waiter, the iterator is a sequence with a cursor.
- Reads of `_rest`, `_ridx` and `_buff_idx` inside the reader's region are made together with the
  next write: `SlotOwnership` shows that the loader does not change them there. For the `_buff_idx`
  of db_reader.cpp:59 this takes it to be loaded no later than `_ridx` is raised.
- Exceptions thrown by copying or moving records, and callers that use more than one reader thread.
- WildcardEntry.Wildcard.Match: a match that comes to a group in which a nested one is open, or not
  closed before the next `/`, is outside its precondition: the source then moves its index backwards
  and may read outside the content.
- WildcardMatch.Match: the same, for the pattern and content of the call.
- WildcardMatch.MatchStar: the same, for the pattern and content of the call.
- WildcardMatch.MatchBracket: the same, for the group it reads, whatever the content.
- WildcardMatch.MatchElement: the same, for the alternative it reads, whatever the content.
- Narrowing of `size_t` lengths to `int` in the matcher, and the unused `_equal`.
- CommandFlags.FlagsExact: separators that mix blanks with other characters, and prefixes or keys
  with characters special to the shell, are not covered; the source passes neither.
- ShellWords.Lex: operators, expansions, patterns and assignments outside single quotes have no
  result, so it recognises plain word lists only; history expansion of interactive shells is not
  modelled.
- `ParsedCommand::parse` and its helpers: wrappers over boost::program_options.
- `strfdate`, the path helpers, the JSON, S2, error-category, server, gzip, redis, protobuf and
  template directories: library calls, tables and plumbing.
